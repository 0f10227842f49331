/** Grouping evidence by source and day, ordering each group in time, and cutting
    it into episodes. */
module EpisodeClusters {
  import opened Sorting
  import opened EpisodeSegments
  import opened SeqOfSeqs

  datatype Cluster = Cluster(key: GroupKey, entries: seq<Entry>)

  predicate TimeLeq(a: Entry, b: Entry) {
    a.timestamp <= b.timestamp
  }

  function StartOf(c: Cluster): int {
    if c.entries == [] then 0 else c.entries[0].timestamp
  }

  /** Clusters are listed by source, then day, then start. */
  predicate ClusterLeq(a: Cluster, b: Cluster) {
    if a.key.sourceId != b.key.sourceId then TextLeq(a.key.sourceId, b.key.sourceId)
    else if a.key.dayKey != b.key.dayKey then TextLeq(a.key.dayKey, b.key.dayKey)
    else StartOf(a) <= StartOf(b)
  }

  lemma ClusterOrder()
    ensures IsOrder(ClusterLeq)
  {
    forall a, b ensures ClusterLeq(a, b) || ClusterLeq(b, a) {
      TextOrder(a.key.sourceId, b.key.sourceId, []);
      TextOrder(a.key.dayKey, b.key.dayKey, []);
    }
    forall a, b, c | ClusterLeq(a, b) && ClusterLeq(b, c) ensures ClusterLeq(a, c) {
      TextOrder(a.key.sourceId, b.key.sourceId, c.key.sourceId);
      TextOrder(b.key.sourceId, c.key.sourceId, a.key.sourceId);
      TextOrder(a.key.dayKey, b.key.dayKey, c.key.dayKey);
      TextOrder(b.key.dayKey, c.key.dayKey, a.key.dayKey);
      hide TextLeq;
    }
  }

  lemma TimeOrder()
    ensures IsOrder(TimeLeq)
  {
  }

  function IsIn(key: GroupKey): Entry -> bool {
    (e: Entry) => e.key == key
  }

  function IsOf(key: GroupKey): Cluster -> bool {
    (c: Cluster) => c.key == key
  }

  /** The entries of one source and day, in the order given. */
  function Group(entries: seq<Entry>, key: GroupKey): seq<Entry> {
    Filter(entries, IsIn(key))
  }

  /** The episodes of one group. */
  function Episodes(entries: seq<Entry>, key: GroupKey, minutes: int): seq<seq<Entry>> {
    Segment(SortBy(Group(entries, key), TimeLeq), minutes)
  }

  function Tagged(key: GroupKey, clusters: seq<seq<Entry>>): (r: seq<Cluster>)
    ensures |r| == |clusters|
    ensures forall i :: 0 <= i < |r| ==> r[i] == Cluster(key, clusters[i])
  {
    seq(|clusters|, i requires 0 <= i < |clusters| => Cluster(key, clusters[i]))
  }

  predicate Distinct(keys: seq<GroupKey>) {
    forall i, j :: 0 <= i < j < |keys| ==> keys[i] != keys[j]
  }

  /** The groups in order of first appearance. */
  function KeysOf(entries: seq<Entry>): (keys: seq<GroupKey>)
    ensures forall e :: e in entries ==> e.key in keys
    ensures Distinct(keys)
    decreases |entries|
  {
    if entries == [] then []
    else
      var n := |entries| - 1;
      var before := KeysOf(entries[..n]);
      if entries[n].key in before then before else before + [entries[n].key]
  }

  function Collect(entries: seq<Entry>, keys: seq<GroupKey>, minutes: int): seq<Cluster>
    decreases |keys|
  {
    if keys == [] then []
    else
      var k := keys[|keys| - 1];
      Collect(entries, keys[..|keys| - 1], minutes) + Tagged(k, Episodes(entries, k, minutes))
  }

  function ClusterEntries(entries: seq<Entry>, minutes: int): seq<Cluster> {
    SortBy(Collect(entries, KeysOf(entries), minutes), ClusterLeq)
  }

  // ----- The loop -----

  method SegmentRun(ordered: seq<Entry>, key: GroupKey, minutes: int) returns (clusters: seq<Cluster>)
    ensures clusters == Tagged(key, Segment(ordered, minutes))
  {
    hide IsTopicShift;
    var maxGap := (if minutes > 1 then minutes else 1) * 60_000_000;
    clusters := [];
    var current: seq<Entry> := [];
    for i := 0 to |ordered|
      invariant i == 0 ==> current == [] && clusters == []
      invariant i > 0 ==> current != [] && current[|current| - 1] == ordered[i - 1]
      invariant i > 0 ==> Segment(ordered[..i], minutes) == Untagged(clusters) + [current]
      invariant forall k :: 0 <= k < |clusters| ==> clusters[k].key == key
    {
      assert ordered[..i + 1][..i] == ordered[..i];
      var row := ordered[i];
      if current == [] {
        current := [row];
        continue;
      }
      var last := current[|current| - 1];
      var gap := if row.timestamp - last.timestamp > 0 then row.timestamp - last.timestamp else 0;
      var domainUnknown := last.domain.NoDomain? || last.domain.EpisodeDomain? || row.domain.NoDomain? || row.domain.EpisodeDomain?;
      var domainOverlap := last.domain == row.domain || domainUnknown;
      var speakerTransition := last.role.Role? && row.role.Role? && last.role != row.role;
      var topicShift := IsTopicShift(last, row);
      var linked := gap <= maxGap && domainOverlap && (!topicShift || speakerTransition);
      assert linked == Continues(last, row, minutes);
      hide Continues;
      if linked {
        ghost var before := Untagged(clusters) + [current];
        assert before[|before| - 1 := current + [row]] == Untagged(clusters) + [current + [row]];
        current := current + [row];
      } else {
        assert Untagged(clusters + [Cluster(key, current)]) == Untagged(clusters) + [current];
        clusters := clusters + [Cluster(key, current)];
        current := [row];
      }
    }
    assert ordered[..|ordered|] == ordered;
    if current != [] {
      assert Untagged(clusters + [Cluster(key, current)]) == Untagged(clusters) + [current];
      clusters := clusters + [Cluster(key, current)];
    }
  }

  ghost function Untagged(clusters: seq<Cluster>): (r: seq<seq<Entry>>)
    ensures |r| == |clusters|
  {
    seq(|clusters|, i requires 0 <= i < |clusters| => clusters[i].entries)
  }

  lemma StartGroups()
    ensures KeysOf([]) == [] && forall k :: Group([], k) == []
  {
  }

  lemma GroupAppend(entries: seq<Entry>, e: Entry)
    ensures KeysOf(entries + [e]) == if e.key in KeysOf(entries) then KeysOf(entries) else KeysOf(entries) + [e.key]
    ensures forall k :: Group(entries + [e], k) == if k == e.key then Group(entries, k) + [e] else Group(entries, k)
  {
    assert (entries + [e])[..|entries|] == entries;
    forall k ensures Group(entries + [e], k) == if k == e.key then Group(entries, k) + [e] else Group(entries, k) {
      FilterAppend(entries, e, IsIn(k));
    }
  }

  method GroupEntries(entries: seq<Entry>) returns (grouped: map<GroupKey, seq<Entry>>, keys: seq<GroupKey>)
    ensures keys == KeysOf(entries)
    ensures forall k :: k in keys <==> k in grouped
    ensures forall k :: k in grouped ==> grouped[k] == Group(entries, k)
  {
    grouped, keys := map[], [];
    hide KeysOf, Group;
    StartGroups();
    for i := 0 to |entries|
      invariant keys == KeysOf(entries[..i])
      invariant forall k :: k in keys <==> k in grouped
      invariant forall k :: Group(entries[..i], k) == if k in grouped then grouped[k] else []
    {
      var e := entries[i];
      assert entries[..i + 1] == entries[..i] + [e];
      GroupAppend(entries[..i], e);
      if e.key !in grouped {
        keys := keys + [e.key];
        grouped := grouped[e.key := [e]];
      } else {
        grouped := grouped[e.key := grouped[e.key] + [e]];
      }
    }
    assert entries[..|entries|] == entries;
  }

  method ClusterAll(entries: seq<Entry>, minutes: int) returns (clusters: seq<Cluster>)
    ensures clusters == ClusterEntries(entries, minutes)
  {
    hide Segment, SortBy, KeysOf;
    var grouped, keys := GroupEntries(entries);
    clusters := [];
    for i := 0 to |keys|
      invariant clusters == Collect(entries, keys[..i], minutes)
    {
      assert keys[..i + 1][..i] == keys[..i];
      var found := SegmentRun(SortBy(grouped[keys[i]], TimeLeq), keys[i], minutes);
      clusters := clusters + found;
    }
    assert keys[..|keys|] == keys;
    clusters := SortBy(clusters, ClusterLeq);
  }

  // ----- What the clusters are -----

  lemma {:induction false} StartsAreSorted(s: seq<Entry>, clusters: seq<seq<Entry>>, minutes: int, key: GroupKey)
    requires IsSorted(s, TimeLeq) && IsSegmentation(s, clusters, minutes)
    ensures IsSorted(Tagged(key, clusters), ClusterLeq)
    decreases |clusters|
  {
    hide Continues, TextLeq;
    forall i, j | 0 <= i < j < |clusters| ensures ClusterLeq(Tagged(key, clusters)[i], Tagged(key, clusters)[j]) {
      assert IsRun(clusters[i], minutes) && IsRun(clusters[j], minutes);
      StartsBefore(clusters, i, j);
    }
  }

  /** Where the first entry of a cluster sits in the whole run. */
  lemma {:induction false} StartsBefore(clusters: seq<seq<Entry>>, i: nat, j: nat)
    requires i < j < |clusters| && IsSorted(Flatten(clusters), TimeLeq)
    requires clusters[i] != [] && clusters[j] != []
    ensures clusters[i][0].timestamp <= clusters[j][0].timestamp
    decreases |clusters|
  {
    var m := |clusters| - 1;
    var front := clusters[..m];
    var f := Flatten(front);
    assert Flatten(clusters) == f + clusters[m];
    if j < m {
      assert IsSorted(f, TimeLeq) by {
        assert forall a :: 0 <= a < |f| ==> f[a] == Flatten(clusters)[a];
      }
      StartsBefore(front, i, j);
    } else {
      var p := PlaceOf(front, i);
      assert Flatten(clusters)[p] == clusters[i][0] && Flatten(clusters)[|f|] == clusters[m][0];
      assert TimeLeq(Flatten(clusters)[p], Flatten(clusters)[|f|]);
    }
  }

  lemma {:induction false} PlaceOf(clusters: seq<seq<Entry>>, i: nat) returns (p: nat)
    requires i < |clusters| && clusters[i] != []
    ensures p < |Flatten(clusters)| && Flatten(clusters)[p] == clusters[i][0]
    decreases |clusters|
  {
    var m := |clusters| - 1;
    if i == m {
      p := |Flatten(clusters[..m])|;
    } else {
      p := PlaceOf(clusters[..m], i);
    }
  }

  lemma FilterTagged(k: GroupKey, key: GroupKey, clusters: seq<seq<Entry>>)
    ensures Filter(Tagged(k, clusters), IsOf(key)) == if k == key then Tagged(k, clusters) else []
    decreases |clusters|
  {
    if clusters != [] {
      var n := |clusters| - 1;
      FilterTagged(k, key, clusters[..n]);
      assert Tagged(k, clusters)[..n] == Tagged(k, clusters[..n]);
    }
  }

  lemma {:induction false} FilterCollected(entries: seq<Entry>, keys: seq<GroupKey>, key: GroupKey, minutes: int)
    requires Distinct(keys)
    ensures Filter(Collect(entries, keys, minutes), IsOf(key))
         == if key in keys then Tagged(key, Episodes(entries, key, minutes)) else []
    decreases |keys|
  {
    if keys != [] {
      hide Distinct, Episodes, Tagged;
      var n := |keys| - 1;
      var k := keys[n];
      InFrontOrLast(keys, key);
      FilterCollected(entries, keys[..n], key, minutes);
      FilterTagged(k, key, Episodes(entries, k, minutes));
      FilterConcat(Collect(entries, keys[..n], minutes), Tagged(k, Episodes(entries, k, minutes)), IsOf(key));
      hide Filter;
      var f := Filter(Collect(entries, keys[..n], minutes), IsOf(key));
      assert f + [] == f && forall t: seq<Cluster> :: [] + t == t;
    }
  }

  lemma InFrontOrLast(keys: seq<GroupKey>, key: GroupKey)
    requires keys != [] && Distinct(keys)
    ensures Distinct(keys[..|keys| - 1])
    ensures key in keys <==> key in keys[..|keys| - 1] || key == keys[|keys| - 1]
    ensures !(key in keys[..|keys| - 1] && key == keys[|keys| - 1])
  {
  }

  lemma {:induction false} NoGroupNoEntries(entries: seq<Entry>, key: GroupKey)
    requires key !in KeysOf(entries)
    ensures Group(entries, key) == []
    decreases |entries|
  {
    if entries != [] {
      NoGroupNoEntries(entries[..|entries| - 1], key);
    }
  }

  /** For every source and day, the clusters listed for it are the episodes of its
      entries in time order: they concatenate to the sorted group, and break
      exactly where neighbours do not belong together. */
  lemma ClustersPartitionEachGroup(entries: seq<Entry>, key: GroupKey, minutes: int)
    ensures var listed := Filter(ClusterEntries(entries, minutes), IsOf(key));
      var ordered := SortBy(Group(entries, key), TimeLeq);
      && listed == Tagged(key, Episodes(entries, key, minutes))
      && IsSegmentation(ordered, Episodes(entries, key, minutes), minutes)
      && multiset(ordered) == multiset(Group(entries, key)) && IsSorted(ordered, TimeLeq)
  {
    var keys := KeysOf(entries);
    var ordered := SortBy(Group(entries, key), TimeLeq);
    TimeOrder();
    ClusterOrder();
    SortSorts(Group(entries, key), TimeLeq);
    SortKeepsElements(Group(entries, key), TimeLeq);
    SegmentIsSegmentation(ordered, minutes);
    StartsAreSorted(ordered, Episodes(entries, key, minutes), minutes, key);
    SortingSortedIsIdle(Tagged(key, Episodes(entries, key, minutes)), ClusterLeq);
    SortCommutesWithFilter(Collect(entries, keys, minutes), ClusterLeq, IsOf(key));
    FilterCollected(entries, keys, key, minutes);
    if key !in keys {
      NoGroupNoEntries(entries, key);
    }
    hide Filter, SortBy, KeysOf, Collect, Episodes, Segment, IsSegmentation, IsSorted, IsOrder, Tagged;
  }
}
