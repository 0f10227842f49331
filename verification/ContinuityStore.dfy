/** The revision-tagged graph cache of the continuity store: the store's own
    operations, and what every interleaving of their atomic steps keeps. */
module ContinuityStore {
  import opened NeighborGraphs
  import opened Options

  /** What a query is answered with. */
  datatype Graphs = Graphs(constellations: Graph, arcs: Graph, atomIds: set<AtomId>)

  const NO_GRAPHS := Graphs(map[], map[], {})

  /** The derived cache and the revision it claims to be for; -1 is cleared. */
  datatype Cache = Cache(revision: int, graphs: Graphs)

  const CLEARED := Cache(-1, NO_GRAPHS)

  function GraphsOf(snapshot: Snapshot): Graphs {
    var constellations, arcs := NeighborGraph(snapshot.constellations), NeighborGraph(snapshot.arcs);
    Graphs(constellations, arcs, constellations.Keys + arcs.Keys + AtomsOf(snapshot.sharedKeys))
  }

  /** The store as threads share it.  `published[r]` is the snapshot of revision
      `r`; `clearing` holds between publishing a snapshot and clearing the cache,
      while the snapshot lock is taken. */
  datatype Shared = Shared(published: seq<Option<Snapshot>>, clearing: bool, cache: Cache) {
    function Revision(): int { |published| - 1 }
  }

  function Publish(s: Shared, snapshot: Snapshot): Shared {
    s.(published := s.published + [Some(snapshot)], clearing := true)
  }

  function Clear(s: Shared): Shared {
    s.(clearing := false, cache := CLEARED)
  }

  /** Rebuilds the cache unless it is already tagged with the caller's revision. */
  function Ensure(s: Shared, revision: int, snapshot: Snapshot): Shared {
    if s.cache.revision == revision then s else s.(cache := Cache(revision, GraphsOf(snapshot)))
  }

  /** The tags a cache can carry: cleared, or the revision of a snapshot. */
  predicate IsTag(published: seq<Option<Snapshot>>, tag: int) {
    tag == -1 || (0 <= tag < |published| && published[tag].Some?)
  }

  /** What a cache with this tag has to hold. */
  function GraphsFor(published: seq<Option<Snapshot>>, tag: int): Graphs
    requires IsTag(published, tag)
  {
    if tag == -1 then NO_GRAPHS else GraphsOf(published[tag].value)
  }

  /** A cache tagged `r` holds the graphs of the `r`-th published snapshot, and a
      cache tagged -1 is empty. */
  ghost predicate IsCacheOfSome(published: seq<Option<Snapshot>>, c: Cache) {
    IsTag(published, c.revision) && c.graphs == GraphsFor(published, c.revision)
  }

  /** What graphs of a snapshot are: they link the atoms of one constellation, and
      those of one arc, to each other and hold no atom without a link; the atoms are
      those with a link and those under a shared key. */
  ghost predicate AreOf(g: Graphs, s: Snapshot) {
    && (forall a, b :: HasLink(g.constellations, a, b) <==> Linked(s.constellations, a, b))
    && (forall a, b :: HasLink(g.arcs, a, b) <==> Linked(s.arcs, a, b))
    && (forall a :: a in g.constellations ==> g.constellations[a] != {})
    && (forall a :: a in g.arcs ==> g.arcs[a] != {})
    && (forall a :: a in g.atomIds <==> HasPeer(s.constellations, a) || HasPeer(s.arcs, a) || InGroup(s.sharedKeys, a))
  }

  ghost predicate HasPeer(groups: seq<seq<AtomId>>, a: AtomId) {
    exists b :: Linked(groups, a, b)
  }

  predicate InGroup(groups: seq<seq<AtomId>>, a: AtomId) {
    exists i :: 0 <= i < |groups| && a in groups[i]
  }

  lemma KeysHavePeers(groups: seq<seq<AtomId>>, a: AtomId)
    ensures a in NeighborGraph(groups) <==> HasPeer(groups, a)
  {
    var g := NeighborGraph(groups);
    hide NeighborGraph;
    if a in g {
      var b :| b in g[a];
      assert HasLink(g, a, b);
    }
    if HasPeer(groups, a) {
      var b :| Linked(groups, a, b);
      assert HasLink(g, a, b);
    }
  }

  lemma BuiltGraphsAreOf(s: Snapshot)
    ensures AreOf(GraphsOf(s), s)
  {
    hide HasPeer, Linked;
    forall a ensures a in GraphsOf(s).atomIds <==> HasPeer(s.constellations, a) || HasPeer(s.arcs, a) || InGroup(s.sharedKeys, a) {
      KeysHavePeers(s.constellations, a);
      KeysHavePeers(s.arcs, a);
    }
  }

  lemma OnlyOneOf(g: Graphs, h: Graphs, s: Snapshot)
    requires AreOf(g, s) && AreOf(h, s)
    ensures g == h
  {
    hide HasPeer, Linked, HasLink, InGroup;
    GraphsAreTheirLinks(g.constellations, h.constellations);
    GraphsAreTheirLinks(g.arcs, h.arcs);
    assert g.atomIds == h.atomIds;
  }

  /** The graphs that are built are the snapshot's, and no others are. */
  lemma GraphsAreTheSnapshots(g: Graphs, s: Snapshot)
    ensures AreOf(g, s) <==> g == GraphsOf(s)
  {
    hide *;
    BuiltGraphsAreOf(s);
    if AreOf(g, s) {
      OnlyOneOf(g, GraphsOf(s), s);
    }
  }

  /** The graphs of some published snapshot, or none. */
  ghost predicate AreGraphsOfSome(published: seq<Option<Snapshot>>, g: Graphs) {
    exists tag :: IsTag(published, tag) && g == GraphsFor(published, tag)
  }

  ghost predicate SharedOk(s: Shared) {
    s.published != [] && IsCacheOfSome(s.published, s.cache)
  }

  // ----- The store's operations, one caller at a time -----

  class Store {
    var snapshot: Option<Snapshot>
    var snapshotRevision: nat
    var cachedRevision: int
    var cachedConstellations: Graph
    var cachedArcs: Graph
    var cachedAtomIds: set<AtomId>
    ghost var published: seq<Option<Snapshot>>

    ghost function State(): Shared
      reads this
    {
      Shared(published, false, Cache(cachedRevision, Graphs(cachedConstellations, cachedArcs, cachedAtomIds)))
    }

    ghost predicate Valid()
      reads this
    {
      && |published| == snapshotRevision + 1
      && published[snapshotRevision] == snapshot
      && SharedOk(State())
    }

    constructor (initial: Option<Snapshot>)
      ensures Valid() && State() == Shared([initial], false, CLEARED)
    {
      snapshot := initial;
      snapshotRevision := 0;
      cachedRevision := -1;
      cachedConstellations := map[];
      cachedArcs := map[];
      cachedAtomIds := {};
      published := [initial];
    }

    method SetSnapshot(s: Snapshot) returns (revision: nat)
      requires Valid()
      modifies this
      ensures Valid() && State() == Clear(Publish(old(State()), s))
      ensures revision == State().Revision() && snapshot == Some(s)
    {
      snapshot := Some(s);
      snapshotRevision := snapshotRevision + 1;
      published := published + [Some(s)];
      cachedRevision := -1;
      cachedConstellations := map[];
      cachedArcs := map[];
      cachedAtomIds := {};
      revision := snapshotRevision;
    }

    method SnapshotView() returns (revision: nat, active: Option<Snapshot>)
      requires Valid()
      ensures revision == State().Revision() && active == State().published[revision]
    {
      revision, active := snapshotRevision, snapshot;
    }

    method EnsureGraphCache(revision: int, s: Snapshot)
      requires Valid()
      requires 0 <= revision < |published| && published[revision] == Some(s)
      modifies this
      ensures Valid() && State() == Ensure(old(State()), revision, s)
      ensures snapshotRevision == old(snapshotRevision)
    {
      hide NeighborGraph, AtomsOf;
      if cachedRevision == revision {
        return;
      }
      var constellations := BuildNeighbors(s.constellations);
      var arcs := BuildNeighbors(s.arcs);
      cachedConstellations := constellations;
      cachedArcs := arcs;
      cachedAtomIds := constellations.Keys + arcs.Keys + AtomsOf(s.sharedKeys);
      cachedRevision := revision;
    }

    /** A whole query with nobody else running: the graphs are those of the
        revision it reports, and there are none without a snapshot. */
    method ExpansionForQuery() returns (revision: nat, constellations: Graph, arcs: Graph, atomIds: set<AtomId>)
      requires Valid()
      modifies this
      ensures Valid() && published == old(published)
      ensures revision == State().Revision()
      ensures published[revision].None? ==> constellations == map[] && arcs == map[] && atomIds == {}
      ensures published[revision].Some? ==>
        && Graphs(constellations, arcs, atomIds) == GraphsOf(published[revision].value)
        && AreOf(Graphs(constellations, arcs, atomIds), published[revision].value)
    {
      var active;
      revision, active := SnapshotView();
      if active.None? {
        return revision, map[], map[], {};
      }
      EnsureGraphCache(revision, active.value);
      constellations, arcs, atomIds := cachedConstellations, cachedArcs, cachedAtomIds;
      GraphsAreTheSnapshots(Graphs(constellations, arcs, atomIds), active.value);
      hide GraphsOf, AreOf;
    }
  }

  // ----- All interleavings -----

  type ThreadId = nat

  /** How far a thread has got with one query. */
  datatype Phase =
    | Idle
    | Viewed(revision: int, snapshot: Option<Snapshot>)
    | Ensured(revision: int)
    | Answered(revision: int, read: Graphs)

  datatype World = World(shared: Shared, threads: map<ThreadId, Phase>)

  datatype Step =
    | DoPublish(snapshot: Snapshot)
    | DoClear
    | DoView(t: ThreadId)
    | DoEnsure(t: ThreadId)
    | DoRead(t: ThreadId)

  function PhaseOf(w: World, t: ThreadId): Phase {
    if t in w.threads then w.threads[t] else Idle
  }

  /** Publishing and viewing need the snapshot lock, which the publisher keeps
      until it has cleared the cache; ensuring and reading need only the cache lock. */
  predicate Enabled(w: World, step: Step) {
    match step
    case DoPublish(_) => !w.shared.clearing
    case DoClear => w.shared.clearing
    case DoView(t) => !w.shared.clearing && w.shared.published != []
    case DoEnsure(t) => PhaseOf(w, t).Viewed?
    case DoRead(t) => PhaseOf(w, t).Ensured?
  }

  function Apply(w: World, step: Step): World
    requires Enabled(w, step)
  {
    match step
    case DoPublish(s) => w.(shared := Publish(w.shared, s))
    case DoClear => w.(shared := Clear(w.shared))
    case DoView(t) =>
      var r := w.shared.Revision();
      w.(threads := w.threads[t := Viewed(r, w.shared.published[r])])
    case DoEnsure(t) =>
      var view := PhaseOf(w, t);
      if view.snapshot.None? then w.(threads := w.threads[t := Answered(view.revision, NO_GRAPHS)])
      else World(Ensure(w.shared, view.revision, view.snapshot.value), w.threads[t := Ensured(view.revision)])
    case DoRead(t) =>
      w.(threads := w.threads[t := Answered(PhaseOf(w, t).revision, w.shared.cache.graphs)])
  }

  predicate Runs(w: World, steps: seq<Step>)
    decreases |steps|
  {
    steps == [] || (Enabled(w, steps[0]) && Runs(Apply(w, steps[0]), steps[1..]))
  }

  function After(w: World, steps: seq<Step>): World
    requires Runs(w, steps)
    decreases |steps|
  {
    if steps == [] then w else After(Apply(w, steps[0]), steps[1..])
  }

  function Initial(snapshot: Option<Snapshot>): World {
    World(Shared([snapshot], false, CLEARED), map[])
  }

  predicate IsOf(step: Step, t: ThreadId) {
    (step.DoView? || step.DoEnsure? || step.DoRead?) && step.t == t
  }

  /** What a thread holds came from the published history. */
  ghost predicate PhaseOk(published: seq<Option<Snapshot>>, p: Phase) {
    match p
    case Idle => true
    case Viewed(r, s) => 0 <= r < |published| && s == published[r]
    case Ensured(r) => 0 <= r < |published| && published[r].Some?
    case Answered(r, g) => 0 <= r < |published| && AreGraphsOfSome(published, g)
  }

  ghost predicate Inv(w: World) {
    SharedOk(w.shared) && forall t :: t in w.threads ==> PhaseOk(w.shared.published, w.threads[t])
  }

  lemma GraphsStay(published: seq<Option<Snapshot>>, longer: seq<Option<Snapshot>>, g: Graphs)
    requires published <= longer && AreGraphsOfSome(published, g)
    ensures AreGraphsOfSome(longer, g)
  {
    hide GraphsOf;
    var tag :| IsTag(published, tag) && g == GraphsFor(published, tag);
    assert IsTag(longer, tag) && g == GraphsFor(longer, tag);
  }

  lemma PhaseStays(published: seq<Option<Snapshot>>, longer: seq<Option<Snapshot>>, p: Phase)
    requires published <= longer && PhaseOk(published, p)
    ensures PhaseOk(longer, p)
  {
    hide AreGraphsOfSome;
    if p.Answered? {
      GraphsStay(published, longer, p.read);
    }
  }

  /** What one step makes of the phase of its thread. */
  lemma StepPhase(w: World, step: Step, t: ThreadId)
    requires Inv(w) && Enabled(w, step) && t in Apply(w, step).threads && IsOf(step, t)
    ensures PhaseOk(Apply(w, step).shared.published, Apply(w, step).threads[t])
  {
    hide GraphsOf;
    var published := w.shared.published;
    assert IsTag(published, -1) && GraphsFor(published, -1) == NO_GRAPHS;
    var c := w.shared.cache;
    assert IsTag(published, c.revision) && c.graphs == GraphsFor(published, c.revision);
    if t in w.threads {
      assert PhaseOk(published, w.threads[t]);
    }
  }

  lemma InvIsKept(w: World, step: Step)
    requires Inv(w) && Enabled(w, step)
    ensures Inv(Apply(w, step))
    ensures w.shared.published <= Apply(w, step).shared.published
  {
    hide GraphsOf;
    var w' := Apply(w, step);
    SharedStays(w, step);
    forall t | t in w'.threads ensures PhaseOk(w'.shared.published, w'.threads[t]) {
      if IsOf(step, t) {
        StepPhase(w, step, t);
      } else {
        assert w'.threads[t] == w.threads[t];
        PhaseStays(w.shared.published, w'.shared.published, w.threads[t]);
      }
    }
  }

  lemma SharedStays(w: World, step: Step)
    requires Inv(w) && Enabled(w, step)
    ensures SharedOk(Apply(w, step).shared) && w.shared.published <= Apply(w, step).shared.published
  {
    hide GraphsOf;
    if step.DoEnsure? {
      assert PhaseOk(w.shared.published, w.threads[step.t]);
    }
  }

  /** Over every run, the cache and everything any thread was ever handed belong
      to a published snapshot, or are empty. */
  lemma {:induction false} InvOverRuns(w: World, steps: seq<Step>)
    requires Inv(w) && Runs(w, steps)
    ensures Inv(After(w, steps)) && w.shared.published <= After(w, steps).shared.published
    decreases |steps|
  {
    if steps != [] {
      InvIsKept(w, steps[0]);
      InvOverRuns(Apply(w, steps[0]), steps[1..]);
    }
  }

  lemma EveryAnswerIsPublished(snapshot: Option<Snapshot>, steps: seq<Step>, t: ThreadId)
    requires Runs(Initial(snapshot), steps)
    ensures var w := After(Initial(snapshot), steps);
      && IsCacheOfSome(w.shared.published, w.shared.cache)
      && (PhaseOf(w, t).Answered? ==>
            var a := PhaseOf(w, t);
            && AreGraphsOfSome(w.shared.published, a.read) && 0 <= a.revision < |w.shared.published|
            && (a.read == Graphs(map[], map[], {}) || exists r :: IsReadOf(w.shared.published, r, a.read)))
  {
    hide GraphsOf;
    InvOverRuns(Initial(snapshot), steps);
    var w := After(Initial(snapshot), steps);
    if PhaseOf(w, t).Answered? {
      SomeGraphsAreReadOf(w.shared.published, PhaseOf(w, t).read);
    }
  }

  /** The graphs link what the snapshot of revision `r` groups, layer by layer. */
  ghost predicate IsReadOf(published: seq<Option<Snapshot>>, r: int, g: Graphs) {
    0 <= r < |published| && published[r].Some? && AreOf(g, published[r].value)
  }

  lemma SomeGraphsAreReadOf(published: seq<Option<Snapshot>>, g: Graphs)
    requires AreGraphsOfSome(published, g)
    ensures g == Graphs(map[], map[], {}) || exists r :: IsReadOf(published, r, g)
  {
    hide GraphsOf, AreOf;
    var tag :| IsTag(published, tag) && g == GraphsFor(published, tag);
    if tag != -1 {
      GraphsAreTheSnapshots(g, published[tag].value);
      assert IsReadOf(published, tag, g);
    }
  }

  ghost predicate NoneOf(steps: seq<Step>, t: ThreadId) {
    forall i :: 0 <= i < |steps| ==> !IsOf(steps[i], t)
  }

  /** The tag a step leaves: clearing leaves -1, the rebuild of a thread that
      viewed a snapshot leaves the revision it viewed, nothing else touches it. */
  function TagAfterStep(w: World, step: Step, tag: int): int {
    match step
    case DoClear => -1
    case DoEnsure(t) =>
      var p := PhaseOf(w, t);
      if p.Viewed? && p.snapshot.Some? then p.revision else tag
    case _ => tag
  }

  function TagAfter(w: World, steps: seq<Step>, tag: int): int
    requires Runs(w, steps)
    decreases |steps|
  {
    if steps == [] then tag
    else TagAfter(Apply(w, steps[0]), steps[1..], TagAfterStep(w, steps[0], tag))
  }

  lemma {:induction false} TagIsTheCaches(w: World, steps: seq<Step>, t: ThreadId)
    requires Runs(w, steps) && NoneOf(steps, t)
    ensures After(w, steps).shared.cache.revision == TagAfter(w, steps, w.shared.cache.revision)
    ensures PhaseOf(After(w, steps), t) == PhaseOf(w, t)
    decreases |steps|
  {
    hide GraphsOf;
    if steps != [] {
      assert !IsOf(steps[0], t);
      TagIsTheCaches(Apply(w, steps[0]), steps[1..], t);
    }
  }

  /** Whatever other threads do between a thread's rebuild and its read: the read
      returns the graphs that belong to the tag the steps in between leave.  So it
      returns exactly the graphs of the revision it reports if and only if that tag
      stands for the same graphs. */
  lemma ReadIsExactIff(w: World, t: ThreadId, steps: seq<Step>)
    requires Inv(w) && Enabled(w, DoEnsure(t)) && PhaseOf(w, t).snapshot.Some?
    requires Runs(Apply(w, DoEnsure(t)), steps) && NoneOf(steps, t)
    ensures var view, v := PhaseOf(w, t), Apply(w, DoEnsure(t));
      var u := After(v, steps);
      var tag := TagAfter(v, steps, view.revision);
      && Enabled(u, DoRead(t))
      && IsTag(u.shared.published, tag) && IsTag(u.shared.published, view.revision)
      && PhaseOf(Apply(u, DoRead(t)), t) == Answered(view.revision, GraphsFor(u.shared.published, tag))
      && (PhaseOf(Apply(u, DoRead(t)), t) == Answered(view.revision, GraphsOf(view.snapshot.value))
          <==> GraphsFor(u.shared.published, tag) == GraphsFor(u.shared.published, view.revision))
  {
    hide GraphsOf;
    var v := Apply(w, DoEnsure(t));
    assert PhaseOk(w.shared.published, w.threads[t]);
    InvIsKept(w, DoEnsure(t));
    InvOverRuns(v, steps);
    TagIsTheCaches(v, steps, t);
    hide TagAfter, After, Runs, NoneOf;
  }

  /** The steps that leave another tag than `revision`: clearing, and a rebuild by
      a thread that viewed another revision. */
  predicate Disturbs(w: World, step: Step, revision: int) {
    || step.DoClear?
    || (step.DoEnsure? && PhaseOf(w, step.t).Viewed? && PhaseOf(w, step.t).snapshot.Some?
        && PhaseOf(w, step.t).revision != revision)
  }

  ghost predicate Undisturbed(w: World, steps: seq<Step>, revision: int)
    requires Runs(w, steps)
    decreases |steps|
  {
    steps == [] || (!Disturbs(w, steps[0], revision) && Undisturbed(Apply(w, steps[0]), steps[1..], revision))
  }

  lemma {:induction false} UndisturbedKeepsTag(w: World, steps: seq<Step>, revision: int)
    requires Runs(w, steps) && Undisturbed(w, steps, revision)
    ensures TagAfter(w, steps, revision) == revision
    decreases |steps|
  {
    hide GraphsOf;
    if steps != [] {
      UndisturbedKeepsTag(Apply(w, steps[0]), steps[1..], revision);
    }
  }

  /** So a read that nothing disturbs is exact. */
  lemma UndisturbedReadIsExact(w: World, t: ThreadId, steps: seq<Step>)
    requires Inv(w) && Enabled(w, DoEnsure(t)) && PhaseOf(w, t).snapshot.Some?
    requires var v := Apply(w, DoEnsure(t));
      Runs(v, steps) && NoneOf(steps, t) && Undisturbed(v, steps, PhaseOf(w, t).revision)
    ensures var view := PhaseOf(w, t);
      var u := After(Apply(w, DoEnsure(t)), steps);
      && Enabled(u, DoRead(t))
      && PhaseOf(Apply(u, DoRead(t)), t) == Answered(view.revision, GraphsOf(view.snapshot.value))
  {
    ReadIsExactIff(w, t, steps);
    UndisturbedKeepsTag(Apply(w, DoEnsure(t)), steps, PhaseOf(w, t).revision);
    hide *;
  }

  function PublishTwice(first: Snapshot, second: Snapshot): seq<Step> {
    [DoPublish(first), DoClear, DoView(1), DoPublish(second), DoClear, DoView(2)]
  }

  function RebuildTwice(): seq<Step> {
    [DoEnsure(2), DoEnsure(1), DoRead(2)]
  }

  lemma {:induction false} RunsTogether(w: World, steps: seq<Step>, more: seq<Step>)
    requires Runs(w, steps) && Runs(After(w, steps), more)
    ensures Runs(w, steps + more) && After(w, steps + more) == After(After(w, steps), more)
    decreases |steps|
  {
    hide Enabled, Apply;
    if steps == [] {
      assert steps + more == more;
    } else {
      assert (steps + more)[1..] == steps[1..] + more;
      RunsTogether(Apply(w, steps[0]), steps[1..], more);
    }
  }

  lemma RunsBack(w: World, step: Step, steps: seq<Step>)
    requires Enabled(w, step) && Runs(Apply(w, step), steps)
    ensures Runs(w, [step] + steps) && After(w, [step] + steps) == After(Apply(w, step), steps)
  {
    assert ([step] + steps)[1..] == steps;
  }

  /** Both threads have viewed: one before the second publication, one after it. */
  function BothViewed(first: Snapshot, second: Snapshot): World {
    World(Shared([None, Some(first), Some(second)], false, CLEARED),
          map[1 := Viewed(1, Some(first)), 2 := Viewed(2, Some(second))])
  }

  lemma PublishingTwice(first: Snapshot, second: Snapshot)
    ensures Runs(Initial(None), PublishTwice(first, second))
    ensures After(Initial(None), PublishTwice(first, second)) == BothViewed(first, second)
  {
    var w1 := Apply(Initial(None), DoPublish(first));
    var w2 := Apply(w1, DoClear);
    var w3 := Apply(w2, DoView(1));
    var w4 := Apply(w3, DoPublish(second));
    var w5 := Apply(w4, DoClear);
    var w6 := Apply(w5, DoView(2));
    assert w6 == BothViewed(first, second);
    RunsBack(w5, DoView(2), []);
    RunsBack(w4, DoClear, [DoView(2)]);
    RunsBack(w3, DoPublish(second), [DoClear, DoView(2)]);
    RunsBack(w2, DoView(1), [DoPublish(second), DoClear, DoView(2)]);
    RunsBack(w1, DoClear, [DoView(1), DoPublish(second), DoClear, DoView(2)]);
    RunsBack(Initial(None), DoPublish(first), [DoClear, DoView(1), DoPublish(second), DoClear, DoView(2)]);
    hide Runs, After, Apply, Enabled;
  }

  lemma RebuildingTwice(first: Snapshot, second: Snapshot)
    ensures var w := BothViewed(first, second);
      Runs(w, RebuildTwice()) && After(w, RebuildTwice()).shared.published == w.shared.published
      && PhaseOf(After(w, RebuildTwice()), 2) == Answered(2, GraphsOf(first))
  {
    hide GraphsOf;
    var w := BothViewed(first, second);
    var w1 := Apply(w, DoEnsure(2));
    var w2 := Apply(w1, DoEnsure(1));
    var w3 := Apply(w2, DoRead(2));
    assert PhaseOf(w3, 2) == Answered(2, GraphsOf(first));
    RunsBack(w2, DoRead(2), []);
    RunsBack(w1, DoEnsure(1), [DoRead(2)]);
    RunsBack(w, DoEnsure(2), [DoEnsure(1), DoRead(2)]);
    hide Runs, After;
  }

  /** The disturbance is real: a thread still holding revision 1 can rebuild the
      cache after a thread holding revision 2, which then reads revision 1's
      graphs and reports them as revision 2's; wrongly, wherever the two differ. */
  lemma OverlappingQueriesMixRevisions(first: Snapshot, second: Snapshot)
    ensures var steps := PublishTwice(first, second) + RebuildTwice();
      && Runs(Initial(None), steps)
      && After(Initial(None), steps).shared.published == [None, Some(first), Some(second)]
      && PhaseOf(After(Initial(None), steps), 2) == Answered(2, GraphsOf(first))
      && (GraphsOf(first) != GraphsOf(second) ==>
            PhaseOf(After(Initial(None), steps), 2) != Answered(2, GraphsOf(second)))
  {
    PublishingTwice(first, second);
    RebuildingTwice(first, second);
    hide Runs, After, Apply, GraphsOf, PublishTwice, RebuildTwice;
    RunsTogether(Initial(None), PublishTwice(first, second), RebuildTwice());
  }

  /** Two such snapshots. */
  lemma SomeGraphsDiffer()
    ensures GraphsOf(Snapshot([], [], [["a"]])) != GraphsOf(Snapshot([], [], []))
  {
    assert "a" in [["a"]][0];
    assert "a" in AtomsOf([["a"]]) && "a" !in AtomsOf([]);
    GraphKeys([], "a");
    assert "a" in GraphsOf(Snapshot([], [], [["a"]])).atomIds;
    assert "a" !in GraphsOf(Snapshot([], [], [])).atomIds;
  }

  // ----- Recognition atoms: cached against computed from the snapshot -----

  /** The atoms whose recognition bonus is reported for an explicit snapshot. */
  function RecognitionAtoms(s: Snapshot): set<AtomId> {
    AtomsOf(s.constellations) + AtomsOf(s.arcs) + AtomsOf(s.sharedKeys)
  }

  /** An atom of a constellation or arc that has no peer in any and is no shared key. */
  ghost predicate IsLoner(s: Snapshot, a: AtomId) {
    && a in AtomsOf(s.constellations) + AtomsOf(s.arcs) && a !in AtomsOf(s.sharedKeys)
    && (forall b :: !Linked(s.constellations, a, b) && !Linked(s.arcs, a, b))
  }

  lemma GraphKeys(groups: seq<seq<AtomId>>, a: AtomId)
    ensures a in NeighborGraph(groups) <==> exists b :: Linked(groups, a, b)
    ensures a in NeighborGraph(groups) ==> a in AtomsOf(groups)
  {
    if a in NeighborGraph(groups) {
      var b :| b in NeighborGraph(groups)[a];
      assert HasLink(NeighborGraph(groups), a, b);
    }
    if b :| Linked(groups, a, b) {
      assert HasLink(NeighborGraph(groups), a, b);
    }
  }

  /** The cached bonus map covers no more atoms than the one for an explicit
      snapshot, and the same ones exactly when the snapshot has no loners. */
  lemma CachedRecognitionAtoms(s: Snapshot)
    ensures GraphsOf(s).atomIds <= RecognitionAtoms(s)
    ensures GraphsOf(s).atomIds == RecognitionAtoms(s) <==> forall a :: !IsLoner(s, a)
  {
    forall a ensures IsLoner(s, a) <==> a in RecognitionAtoms(s) && a !in GraphsOf(s).atomIds {
      GraphKeys(s.constellations, a);
      GraphKeys(s.arcs, a);
    }
    forall a | a in GraphsOf(s).atomIds ensures a in RecognitionAtoms(s) {
      GraphKeys(s.constellations, a);
      GraphKeys(s.arcs, a);
    }
  }

  /** For instance the only atom of a constellation. */
  lemma LonerIsLeftOut(a: AtomId)
    ensures var s := Snapshot([[a]], [], []);
      a in RecognitionAtoms(s) && a !in GraphsOf(s).atomIds
  {
    var s := Snapshot([[a]], [], []);
    assert a in s.constellations[0];
    GraphKeys(s.constellations, a);
    GraphKeys(s.arcs, a);
  }
}
