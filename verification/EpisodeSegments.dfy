/** Cutting a time-ordered run of evidence into episodes where neighbours do not
    belong together. */
module EpisodeSegments {
  import opened SeqOfSeqs

  type Token = nat

  /** The normalized domain; the name "episode" says nothing. */
  datatype Domain = NoDomain | EpisodeDomain | Named(name: Token)

  datatype RoleHint = NoRole | Role(name: Token)

  datatype GroupKey = GroupKey(sourceId: string, dayKey: string)

  datatype Entry = Entry(
    key: GroupKey, timestamp: int, domain: Domain, role: RoleHint, topics: set<Token>, tokens: set<Token>)

  /** Topics that do not meet, or hardly any words in common: less than 15 per cent. */
  predicate IsTopicShift(previous: Entry, current: Entry) {
    if previous.topics != {} && current.topics != {} && previous.topics * current.topics == {} then true
    else if |previous.tokens| < 4 || |current.tokens| < 4 then false
    else
      var overlap := |previous.tokens * current.tokens|;
      var baseline := if |previous.tokens| < |current.tokens| then |previous.tokens| else |current.tokens|;
      100 * overlap < 15 * baseline
  }

  predicate IsUnknown(d: Domain) {
    d == NoDomain || d == EpisodeDomain
  }

  /** The widest gap bridged, in microseconds, for a setting in minutes. */
  function MaxGap(minutes: int): int {
    (if minutes > 1 then minutes else 1) * 60_000_000
  }

  function Gap(last: Entry, next: Entry): int {
    if next.timestamp > last.timestamp then next.timestamp - last.timestamp else 0
  }

  /** Whether `next` goes on with the episode that ends in `last`. */
  predicate Continues(last: Entry, next: Entry, minutes: int) {
    && Gap(last, next) <= MaxGap(minutes)
    && (last.domain == next.domain || IsUnknown(last.domain) || IsUnknown(next.domain))
    && (!IsTopicShift(last, next) || (last.role != NoRole && next.role != NoRole && last.role != next.role))
  }

  /** One more entry, linked to the last episode or not. */
  function Grown(clusters: seq<seq<Entry>>, x: Entry, linked: bool): seq<seq<Entry>>
    requires linked ==> clusters != []
  {
    if linked then clusters[|clusters| - 1 := clusters[|clusters| - 1] + [x]] else clusters + [[x]]
  }

  /** The episodes of a run, built up entry by entry. */
  function Segment(s: seq<Entry>, minutes: int): (clusters: seq<seq<Entry>>)
    ensures s == [] <==> clusters == []
    decreases |s|
  {
    if s == [] then []
    else
      var n := |s| - 1;
      Grown(Segment(s[..n], minutes), s[n], n > 0 && Continues(s[n - 1], s[n], minutes))
  }

  /** `clusters` cut `s` into non-empty runs, exactly where the link test fails. */
  ghost predicate IsSegmentation(s: seq<Entry>, clusters: seq<seq<Entry>>, minutes: int) {
    && Flatten(clusters) == s
    && (forall i :: 0 <= i < |clusters| ==> IsRun(clusters[i], minutes))
    && (forall i :: 0 < i < |clusters| ==> IsBreak(clusters[i - 1], clusters[i], minutes))
  }

  predicate IsRun(c: seq<Entry>, minutes: int) {
    c != [] && forall i :: 0 < i < |c| ==> Continues(c[i - 1], c[i], minutes)
  }

  predicate IsBreak(c: seq<Entry>, d: seq<Entry>, minutes: int) {
    c != [] && d != [] && !Continues(c[|c| - 1], d[0], minutes)
  }

  lemma LastOfFlatten(clusters: seq<seq<Entry>>)
    requires clusters != [] && clusters[|clusters| - 1] != []
    ensures var f, c := Flatten(clusters), clusters[|clusters| - 1]; f != [] && f[|f| - 1] == c[|c| - 1]
  {
  }

  lemma SegmentStep(s: seq<Entry>, minutes: int)
    requires s != []
    ensures var n, before := |s| - 1, Segment(s[..|s| - 1], minutes);
      && (n > 0 ==> before != [])
      && Segment(s, minutes) == Grown(before, s[n], n > 0 && Continues(s[n - 1], s[n], minutes))
  {
    hide Continues, Grown;
  }

  lemma ExtendLast(s: seq<Entry>, before: seq<seq<Entry>>, x: Entry, minutes: int)
    requires IsSegmentation(s, before, minutes) && before != []
    requires s != [] && Continues(s[|s| - 1], x, minutes)
    ensures IsSegmentation(s + [x], before[|before| - 1 := before[|before| - 1] + [x]], minutes)
  {
    hide Continues;
    var m := |before| - 1;
    var c, after := before[m], before[m := before[m] + [x]];
    assert IsRun(c, minutes);
    LastOfFlatten(before);
    assert IsRun(c + [x], minutes);
    assert after[..m] == before[..m];
    assert Flatten(after) == Flatten(before[..m]) + (c + [x]);
    assert Flatten(before[..m]) + (c + [x]) == (Flatten(before[..m]) + c) + [x];
    forall i | 0 < i < |after| ensures IsBreak(after[i - 1], after[i], minutes) {
      assert IsBreak(before[i - 1], before[i], minutes);
    }
  }

  lemma StartNew(s: seq<Entry>, before: seq<seq<Entry>>, x: Entry, minutes: int)
    requires IsSegmentation(s, before, minutes) && (s == [] <==> before == [])
    requires s != [] ==> !Continues(s[|s| - 1], x, minutes)
    ensures IsSegmentation(s + [x], before + [[x]], minutes)
  {
    hide Continues, Flatten;
    FlattenAppend(before, [x]);
    assert IsRun([x], minutes);
    if before != [] {
      assert IsRun(before[|before| - 1], minutes);
      LastOfFlatten(before);
      assert IsBreak(before[|before| - 1], [x], minutes);
    }
  }

  lemma {:induction false} SegmentIsSegmentation(s: seq<Entry>, minutes: int)
    ensures IsSegmentation(s, Segment(s, minutes), minutes)
    decreases |s|
  {
    if s == [] {
      return;
    }
    hide *;
    SegmentIsSegmentation(s[..|s| - 1], minutes);
    SegmentStep(s, minutes);
    SegmentGrows(s, Segment(s[..|s| - 1], minutes), minutes);
  }

  lemma SegmentGrows(s: seq<Entry>, before: seq<seq<Entry>>, minutes: int)
    requires s != [] && IsSegmentation(s[..|s| - 1], before, minutes) && (|s| == 1 <==> before == [])
    ensures IsSegmentation(s, Grown(before, s[|s| - 1], |s| > 1 && Continues(s[|s| - 2], s[|s| - 1], minutes)), minutes)
  {
    hide Continues, IsSegmentation;
    var n := |s| - 1;
    assert s == s[..n] + [s[n]];
    if n > 0 && Continues(s[n - 1], s[n], minutes) {
      ExtendLast(s[..n], before, s[n], minutes);
    } else {
      StartNew(s[..n], before, s[n], minutes);
    }
  }

  /** There is only one way to cut a run where the link test fails. */
  lemma {:induction false} SegmentationIsUnique(s: seq<Entry>, clusters: seq<seq<Entry>>, minutes: int)
    requires IsSegmentation(s, clusters, minutes)
    ensures clusters == Segment(s, minutes)
    decreases |s|
  {
    if clusters == [] {
      return;
    }
    var m := |clusters| - 1;
    LastIsRun(s, clusters, minutes);
    hide *;
    SegmentStep(s, minutes);
    if |clusters[m]| == 1 {
      WithoutLastCluster(s, clusters, minutes);
      SegmentationIsUnique(s[..|s| - 1], clusters[..m], minutes);
    } else {
      WithoutLastEntry(s, clusters, minutes);
      SegmentationIsUnique(s[..|s| - 1], clusters[m := clusters[m][..|clusters[m]| - 1]], minutes);
    }
  }

  lemma LastIsRun(s: seq<Entry>, clusters: seq<seq<Entry>>, minutes: int)
    requires IsSegmentation(s, clusters, minutes) && clusters != []
    ensures s != [] && clusters[|clusters| - 1] != []
  {
    hide Continues;
    assert IsRun(clusters[|clusters| - 1], minutes);
    LastOfFlatten(clusters);
  }

  lemma WithoutLastCluster(s: seq<Entry>, clusters: seq<seq<Entry>>, minutes: int)
    requires IsSegmentation(s, clusters, minutes) && clusters != [] && |clusters[|clusters| - 1]| == 1
    ensures s != [] && clusters == Grown(clusters[..|clusters| - 1], s[|s| - 1], false)
    ensures IsSegmentation(s[..|s| - 1], clusters[..|clusters| - 1], minutes)
    ensures |s| > 1 ==> !Continues(s[|s| - 2], s[|s| - 1], minutes)
  {
    hide Continues;
    var m := |clusters| - 1;
    var front := clusters[..m];
    assert s == Flatten(front) + clusters[m];
    assert s[..|s| - 1] == Flatten(front);
    assert clusters[m] == [s[|s| - 1]] && clusters == front + [clusters[m]];
    forall i | 0 < i < m ensures IsBreak(front[i - 1], front[i], minutes) {
      assert IsBreak(clusters[i - 1], clusters[i], minutes);
    }
    if m > 0 {
      assert IsBreak(clusters[m - 1], clusters[m], minutes);
      LastOfFlatten(front);
    }
  }

  lemma WithoutLastEntry(s: seq<Entry>, clusters: seq<seq<Entry>>, minutes: int)
    requires IsSegmentation(s, clusters, minutes) && clusters != [] && |clusters[|clusters| - 1]| > 1
    ensures var m, c := |clusters| - 1, clusters[|clusters| - 1];
      && |s| > 1 && clusters == Grown(clusters[m := c[..|c| - 1]], s[|s| - 1], true)
      && IsSegmentation(s[..|s| - 1], clusters[m := c[..|c| - 1]], minutes)
      && Continues(s[|s| - 2], s[|s| - 1], minutes)
  {
    hide Continues;
    var m := |clusters| - 1;
    var c := clusters[m];
    var d := c[..|c| - 1];
    var shorter := clusters[m := d];
    assert IsRun(c, minutes) && IsRun(d, minutes);
    assert shorter[..m] == clusters[..m];
    assert s == Flatten(clusters[..m]) + c;
    assert s[..|s| - 1] == Flatten(clusters[..m]) + d;
    assert c == d + [s[|s| - 1]] && clusters == shorter[m := c];
    forall i | 0 < i < |shorter| ensures IsBreak(shorter[i - 1], shorter[i], minutes) {
      assert IsBreak(clusters[i - 1], clusters[i], minutes);
    }
    assert Continues(c[|c| - 2], c[|c| - 1], minutes);
  }

  // ----- Wider gaps -----

  /** Each cluster of `coarse` is a contiguous stretch of clusters of `fine`. */
  ghost predicate IsMerged(fine: seq<seq<Entry>>, coarse: seq<seq<Entry>>)
    decreases |coarse|
  {
    if coarse == [] then fine == []
    else exists m :: 0 <= m < |fine| && LastCovers(fine, m, coarse[|coarse| - 1]) && IsMerged(fine[..m], coarse[..|coarse| - 1])
  }

  predicate LastCovers(fine: seq<seq<Entry>>, m: nat, c: seq<Entry>)
    requires m <= |fine|
  {
    Flatten(fine[m..]) == c
  }

  lemma WiderGapsContinueMore(last: Entry, next: Entry, minutes: int, wider: int)
    requires minutes <= wider && Continues(last, next, minutes)
    ensures Continues(last, next, wider)
  {
  }

  /** Raising the gap only merges episodes: each old one lies whole inside a new one. */
  lemma {:induction false} WiderGapsOnlyMerge(s: seq<Entry>, minutes: int, wider: int)
    requires minutes <= wider
    ensures IsMerged(Segment(s, minutes), Segment(s, wider))
    decreases |s|
  {
    if s == [] {
      return;
    }
    hide *;
    var n := |s| - 1;
    WiderGapsOnlyMerge(s[..n], minutes, wider);
    SegmentStep(s, minutes);
    SegmentStep(s, wider);
    if n > 0 && Continues(s[n - 1], s[n], minutes) {
      WiderGapsContinueMore(s[n - 1], s[n], minutes, wider);
    }
    MergeStep(Segment(s[..n], minutes), Segment(s[..n], wider), s[n],
      n > 0 && Continues(s[n - 1], s[n], minutes), n > 0 && Continues(s[n - 1], s[n], wider));
  }

  lemma MergeStep(fine: seq<seq<Entry>>, coarse: seq<seq<Entry>>, x: Entry, linked: bool, linkedWider: bool)
    requires IsMerged(fine, coarse) && (linked ==> linkedWider) && (linkedWider ==> fine != [] && coarse != [])
    ensures IsMerged(Grown(fine, x, linked), Grown(coarse, x, linkedWider))
  {
    hide IsMerged, LastCovers;
    if linkedWider {
      var m := LastStretch(fine, coarse);
      if linked {
        MergeGrowsInside(fine, coarse, m, x);
      } else {
        MergeGrows(fine, coarse, m, x);
      }
    } else {
      MergeBoth(fine, coarse, x);
    }
  }

  lemma LastStretch(fine: seq<seq<Entry>>, coarse: seq<seq<Entry>>) returns (m: nat)
    requires coarse != [] && IsMerged(fine, coarse)
    ensures m < |fine| && LastCovers(fine, m, coarse[|coarse| - 1]) && IsMerged(fine[..m], coarse[..|coarse| - 1])
  {
    m :| 0 <= m < |fine| && LastCovers(fine, m, coarse[|coarse| - 1]) && IsMerged(fine[..m], coarse[..|coarse| - 1]);
  }

  lemma Merges(fine: seq<seq<Entry>>, coarse: seq<seq<Entry>>, m: nat)
    requires coarse != [] && m < |fine|
    requires LastCovers(fine, m, coarse[|coarse| - 1]) && IsMerged(fine[..m], coarse[..|coarse| - 1])
    ensures IsMerged(fine, coarse)
  {
    hide LastCovers;
  }

  lemma MergeGrows(fine: seq<seq<Entry>>, coarse: seq<seq<Entry>>, m: nat, x: Entry)
    requires coarse != [] && m < |fine| && LastCovers(fine, m, coarse[|coarse| - 1]) && IsMerged(fine[..m], coarse[..|coarse| - 1])
    ensures IsMerged(fine + [[x]], coarse[|coarse| - 1 := coarse[|coarse| - 1] + [x]])
  {
    hide IsMerged, Flatten;
    var k := |coarse| - 1;
    var fine', coarse' := fine + [[x]], coarse[k := coarse[k] + [x]];
    assert fine'[m..] == fine[m..] + [[x]];
    FlattenAppend(fine[m..], [x]);
    assert fine'[..m] == fine[..m] && coarse'[..k] == coarse[..k];
    Merges(fine', coarse', m);
  }

  lemma MergeGrowsInside(fine: seq<seq<Entry>>, coarse: seq<seq<Entry>>, m: nat, x: Entry)
    requires coarse != [] && m < |fine| && LastCovers(fine, m, coarse[|coarse| - 1]) && IsMerged(fine[..m], coarse[..|coarse| - 1])
    ensures IsMerged(fine[|fine| - 1 := fine[|fine| - 1] + [x]], coarse[|coarse| - 1 := coarse[|coarse| - 1] + [x]])
  {
    hide IsMerged, Flatten;
    var k, l := |coarse| - 1, |fine| - 1;
    var fine', coarse' := fine[l := fine[l] + [x]], coarse[k := coarse[k] + [x]];
    assert fine'[m..] == fine[m..l] + [fine[l] + [x]];
    assert fine[m..] == fine[m..l] + [fine[l]];
    FlattenAppend(fine[m..l], fine[l]);
    FlattenAppend(fine[m..l], fine[l] + [x]);
    assert Flatten(fine[m..l]) + (fine[l] + [x]) == (Flatten(fine[m..l]) + fine[l]) + [x];
    assert fine'[..m] == fine[..m] && coarse'[..k] == coarse[..k];
    Merges(fine', coarse', m);
  }

  lemma MergeBoth(fine: seq<seq<Entry>>, coarse: seq<seq<Entry>>, x: Entry)
    requires IsMerged(fine, coarse)
    ensures IsMerged(fine + [[x]], coarse + [[x]])
  {
    var m := |fine|;
    var fine', coarse' := fine + [[x]], coarse + [[x]];
    assert fine'[m..] == [[x]] && fine'[..m] == fine && coarse'[..|coarse|] == coarse;
    FlattenAppend<Entry>([], [x]);
    assert [] + [[x]] == [[x]];
    assert LastCovers(fine', m, coarse'[|coarse|]);
    hide *;
    Merges(fine', coarse', m);
  }
}
