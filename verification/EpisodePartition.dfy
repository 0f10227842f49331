/** Every piece of evidence is in exactly one episode. */
module EpisodePartition {
  import opened Sorting
  import opened SeqOfSeqs
  import opened EpisodeSegments
  import opened EpisodeClusters

  /** All entries of some clusters, one cluster after the other. */
  function AllEntries(clusters: seq<Cluster>): seq<Entry>
    decreases |clusters|
  {
    if clusters == [] then []
    else clusters[0].entries + AllEntries(clusters[1..])
  }

  lemma {:induction false} AllEntriesConcat(a: seq<Cluster>, b: seq<Cluster>)
    ensures AllEntries(a + b) == AllEntries(a) + AllEntries(b)
    decreases |a|
  {
    if a == [] {
      assert a + b == b;
    } else {
      assert (a + b)[1..] == a[1..] + b;
      AllEntriesConcat(a[1..], b);
    }
  }

  lemma AllEntriesOne(c: Cluster)
    ensures AllEntries([c]) == c.entries
  {
  }

  lemma MiddleOut<T>(a: seq<T>, m: seq<T>, b: seq<T>)
    ensures multiset(a + (m + b)) == multiset(a + b) + multiset(m)
  {
  }

  lemma AroundOne<T>(s: seq<T>, i: nat)
    requires i < |s|
    ensures s == s[..i] + ([s[i]] + s[i + 1..])
  {
  }

  lemma AllEntriesAround(front: seq<Cluster>, c: Cluster, back: seq<Cluster>)
    ensures AllEntries(front + ([c] + back)) == AllEntries(front) + (c.entries + AllEntries(back))
  {
    AllEntriesConcat(front, [c] + back);
    AllEntriesConcat([c], back);
    AllEntriesOne(c);
    hide *;
  }

  lemma EntriesWithoutOne(clusters: seq<Cluster>, i: nat)
    requires i < |clusters|
    ensures multiset(AllEntries(clusters))
         == multiset(AllEntries(clusters[..i] + clusters[i + 1..])) + multiset(clusters[i].entries)
  {
    hide *;
    var front, back := clusters[..i], clusters[i + 1..];
    AroundOne(clusters, i);
    AllEntriesAround(front, clusters[i], back);
    AllEntriesConcat(front, back);
    MiddleOut(AllEntries(front), clusters[i].entries, AllEntries(back));
  }

  /** Listing clusters in another order keeps their entries. */
  lemma {:induction false} RearrangedEntries(a: seq<Cluster>, b: seq<Cluster>)
    requires multiset(a) == multiset(b)
    ensures multiset(AllEntries(a)) == multiset(AllEntries(b))
    decreases |a|
  {
    if a == [] {
      NothingLeft(b);
    } else {
      var i := TakeFirst(a, b);
      EntriesWithoutOne(b, i);
      hide AllEntries;
      RearrangedEntries(a[1..], b[..i] + b[i + 1..]);
      AllEntriesFirst(a);
    }
  }

  lemma AllEntriesFirst(a: seq<Cluster>)
    requires a != []
    ensures AllEntries(a) == a[0].entries + AllEntries(a[1..])
  {
  }

  lemma {:induction false} EntriesOfTagged(key: GroupKey, clusters: seq<seq<Entry>>)
    ensures AllEntries(Tagged(key, clusters)) == Flatten(clusters)
    decreases |clusters|
  {
    if clusters != [] {
      var n := |clusters| - 1;
      EntriesOfTagged(key, clusters[..n]);
      assert Tagged(key, clusters) == Tagged(key, clusters[..n]) + [Cluster(key, clusters[n])];
      AllEntriesConcat(Tagged(key, clusters[..n]), [Cluster(key, clusters[n])]);
      assert AllEntries([Cluster(key, clusters[n])]) == clusters[n];
    }
  }

  lemma EntriesOfGroup(entries: seq<Entry>, key: GroupKey, minutes: int)
    ensures multiset(AllEntries(Tagged(key, Episodes(entries, key, minutes)))) == multiset(Group(entries, key))
  {
    var ordered := SortBy(Group(entries, key), TimeLeq);
    EntriesOfTagged(key, Episodes(entries, key, minutes));
    SegmentIsSegmentation(ordered, minutes);
    SortKeepsElements(Group(entries, key), TimeLeq);
    hide Segment, SortBy, Group, Tagged, AllEntries;
  }

  function IsAmong(keys: seq<GroupKey>): Entry -> bool {
    (e: Entry) => e.key in keys
  }

  lemma {:induction false} EntriesOfCollected(entries: seq<Entry>, keys: seq<GroupKey>, minutes: int)
    requires Distinct(keys)
    ensures multiset(AllEntries(Collect(entries, keys, minutes))) == multiset(Filter(entries, IsAmong(keys)))
    decreases |keys|
  {
    if keys == [] {
      FilterNone(entries, IsAmong(keys));
    } else {
      var n := |keys| - 1;
      var front, k := keys[..n], keys[n];
      var own := Tagged(k, Episodes(entries, k, minutes));
      InFrontOrLast(keys, k);
      EntriesOfCollected(entries, front, minutes);
      EntriesOfGroup(entries, k, minutes);
      AllEntriesConcat(Collect(entries, front, minutes), own);
      AmongMore(entries, keys);
      assert Collect(entries, keys, minutes) == Collect(entries, front, minutes) + own;
      hide *;
    }
  }

  lemma AmongMore(entries: seq<Entry>, keys: seq<GroupKey>)
    requires keys != [] && Distinct(keys)
    ensures multiset(Filter(entries, IsAmong(keys)))
         == multiset(Filter(entries, IsAmong(keys[..|keys| - 1]))) + multiset(Group(entries, keys[|keys| - 1]))
  {
    var front, k := keys[..|keys| - 1], keys[|keys| - 1];
    forall i | 0 <= i < |entries| ensures
      && (IsAmong(keys)(entries[i]) <==> IsAmong(front)(entries[i]) || IsIn(k)(entries[i]))
      && !(IsAmong(front)(entries[i]) && IsIn(k)(entries[i]))
    {
      InFrontOrLast(keys, entries[i].key);
    }
    FilterSplits(entries, IsAmong(front), IsIn(k), IsAmong(keys));
  }

  lemma {:induction false} FilterNone<T>(s: seq<T>, p: T -> bool)
    requires forall i :: 0 <= i < |s| ==> !p(s[i])
    ensures Filter(s, p) == []
    decreases |s|
  {
    if s != [] {
      FilterNone(s[..|s| - 1], p);
    }
  }

  /** The clusters together hold every entry exactly as often as it was given, and
      are listed by source, day and start. */
  lemma EveryEntryOnce(entries: seq<Entry>, minutes: int)
    ensures multiset(AllEntries(ClusterEntries(entries, minutes))) == multiset(entries)
    ensures IsSorted(ClusterEntries(entries, minutes), ClusterLeq)
  {
    ClusterOrder();
    SortSorts(Collect(entries, KeysOf(entries), minutes), ClusterLeq);
    var keys := KeysOf(entries);
    var collected := Collect(entries, keys, minutes);
    EntriesOfCollected(entries, keys, minutes);
    SortKeepsElements(collected, ClusterLeq);
    RearrangedEntries(ClusterEntries(entries, minutes), collected);
    forall i | 0 <= i < |entries| ensures IsAmong(keys)(entries[i]) {
      assert entries[i] in entries;
    }
    FilterAll(entries, IsAmong(keys));
    hide Filter, SortBy, Collect, AllEntries, IsSorted, ClusterLeq, IsOrder;
  }
}
