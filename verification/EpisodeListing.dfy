/** What belongs together and in which order it is listed, in plain terms. */
module EpisodeListing {
  import opened Sorting
  import opened EpisodeSegments
  import opened EpisodeClusters
  import opened EpisodePartition

  // ----- Neighbours -----

  /** More than the allowed minutes, at least one, lie between. */
  predicate IsTooLate(last: Entry, next: Entry, minutes: int) {
    next.timestamp - last.timestamp > 60_000_000 && next.timestamp - last.timestamp > 60_000_000 * minutes
  }

  /** Both have a domain that says something, and not the same. */
  predicate IsElsewhere(last: Entry, next: Entry) {
    last.domain.Named? && next.domain.Named? && last.domain.name != next.domain.name
  }

  /** Both have topics and share none; or both have words enough and share less than
      three in twenty of the fewer. */
  predicate IsOffTopic(last: Entry, next: Entry) {
    || (last.topics != {} && next.topics != {} && forall t :: t in last.topics ==> t !in next.topics)
    || (|last.tokens| > 3 && |next.tokens| > 3
        && 20 * |last.tokens * next.tokens| < 3 * |last.tokens| && 20 * |last.tokens * next.tokens| < 3 * |next.tokens|)
  }

  /** Another known speaker answers. */
  predicate IsReply(last: Entry, next: Entry) {
    last.role.Role? && next.role.Role? && last.role.name != next.role.name
  }

  lemma TopicShiftIff(last: Entry, next: Entry)
    ensures IsTopicShift(last, next) <==> IsOffTopic(last, next)
  {
    assert forall t :: t in last.topics && t in next.topics <==> t in last.topics * next.topics;
    if last.topics * next.topics != {} {
      var t :| t in last.topics * next.topics;
    }
  }

  /** Two neighbours stay together exactly if the second comes in time, from no other
      domain, and on topic or as a reply. */
  lemma StayTogetherIff(last: Entry, next: Entry, minutes: int)
    ensures Continues(last, next, minutes)
      <==> !IsTooLate(last, next, minutes) && !IsElsewhere(last, next) && (!IsOffTopic(last, next) || IsReply(last, next))
  {
    TopicShiftIff(last, next);
    hide IsTopicShift, IsOffTopic;
  }

  // ----- Order -----

  /** Where they first differ the smaller character comes first; and a beginning comes
      before what it begins. */
  lemma {:induction false} TextLeqIff(s: string, t: string)
    ensures TextLeq(s, t) <==> s <= t || exists k :: FirstDifferenceAt(s, t, k) && s[k] < t[k]
    decreases |s|
  {
    if s != [] && t != [] {
      TextLeqIff(s[1..], t[1..]);
      assert s <= t <==> s[0] == t[0] && s[1..] <= t[1..];
      forall k: int | k > 0 ensures FirstDifferenceAt(s, t, k) <==> s[0] == t[0] && FirstDifferenceAt(s[1..], t[1..], k - 1) {
        LaterDifference(s, t, k);
      }
      if s[0] != t[0] {
        assert FirstDifferenceAt(s, t, 0);
      } else if exists k :: FirstDifferenceAt(s[1..], t[1..], k) && s[1..][k] < t[1..][k] {
        var k :| FirstDifferenceAt(s[1..], t[1..], k) && s[1..][k] < t[1..][k];
        var next := k + 1;
        assert FirstDifferenceAt(s, t, next);
      }
    }
  }

  predicate FirstDifferenceAt(s: string, t: string, k: int) {
    0 <= k < |s| && k < |t| && s[k] != t[k] && forall i :: 0 <= i < k ==> s[i] == t[i]
  }

  lemma LaterDifference(s: string, t: string, k: int)
    requires s != [] && t != [] && k > 0
    ensures FirstDifferenceAt(s, t, k) <==> s[0] == t[0] && FirstDifferenceAt(s[1..], t[1..], k - 1)
  {
    if s[0] == t[0] && FirstDifferenceAt(s[1..], t[1..], k - 1) {
      forall i | 0 <= i < k ensures s[i] == t[i] {
        assert i > 0 ==> s[1..][i - 1] == t[1..][i - 1];
      }
    }
  }

  /** No episode is listed before one of an earlier source, of an earlier day of its
      source, or that starts earlier on its day. */
  lemma EpisodesAreListedInOrder(entries: seq<Entry>, minutes: int, i: nat, j: nat)
    requires i < j < |ClusterEntries(entries, minutes)|
    ensures var a, b := ClusterEntries(entries, minutes)[i], ClusterEntries(entries, minutes)[j];
      && TextLeq(a.key.sourceId, b.key.sourceId)
      && (a.key.sourceId == b.key.sourceId ==> TextLeq(a.key.dayKey, b.key.dayKey))
      && (a.key == b.key && a.entries != [] && b.entries != [] ==> a.entries[0].timestamp <= b.entries[0].timestamp)
  {
    EveryEntryOnce(entries, minutes);
    var a, b := ClusterEntries(entries, minutes)[i], ClusterEntries(entries, minutes)[j];
    hide ClusterEntries, TextLeq;
    assert ClusterLeq(a, b);
    SameLeq(a.key.sourceId);
    SameLeq(a.key.dayKey);
  }

  lemma SameLeq(s: string)
    ensures TextLeq(s, s)
  {
    TextOrder(s, s, s);
  }

  /** Within a source and day the episodes run forward in time, entry by entry and from
      one to the next: together they are its entries, none later than the next. */
  lemma GroupsRunForward(entries: seq<Entry>, key: GroupKey, i: nat, j: nat)
    requires i < j < |SortBy(Group(entries, key), TimeLeq)|
    ensures var ordered := SortBy(Group(entries, key), TimeLeq);
      ordered[i].timestamp <= ordered[j].timestamp && ordered[i].key == key
  {
    ClustersPartitionEachGroup(entries, key, 1);
    var ordered := SortBy(Group(entries, key), TimeLeq);
    assert TimeLeq(ordered[i], ordered[j]);
    FilterIn(entries, IsIn(key));
    hide SortBy, Filter;
    assert ordered[i] in multiset(ordered);
    assert ordered[i] in Group(entries, key);
  }
}
