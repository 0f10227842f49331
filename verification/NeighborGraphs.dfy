/** Neighbour graphs of a continuity snapshot: which atoms share a group. */
module NeighborGraphs {

  type AtomId = string

  type Graph = map<AtomId, set<AtomId>>

  /** The layers of a snapshot that the graphs are built from. */
  datatype Snapshot = Snapshot(constellations: seq<seq<AtomId>>, arcs: seq<seq<AtomId>>, sharedKeys: seq<seq<AtomId>>)

  /** `a` and `b` are different atoms of one group. */
  predicate Linked(groups: seq<seq<AtomId>>, a: AtomId, b: AtomId) {
    a != b && exists i :: 0 <= i < |groups| && a in groups[i] && b in groups[i]
  }

  predicate HasLink(g: Graph, a: AtomId, b: AtomId) {
    a in g && b in g[a]
  }

  function AtomsOf(groups: seq<seq<AtomId>>): (atoms: set<AtomId>)
    ensures forall a :: a in atoms <==> exists i :: 0 <= i < |groups| && a in groups[i]
  {
    set i, a | 0 <= i < |groups| && a in groups[i] :: a
  }

  function PeersOf(groups: seq<seq<AtomId>>, a: AtomId): (peers: set<AtomId>)
    ensures forall b :: b in peers <==> Linked(groups, a, b)
  {
    set b | b in AtomsOf(groups) && Linked(groups, a, b)
  }

  /** Every atom with a peer, mapped to all its peers. */
  function NeighborGraph(groups: seq<seq<AtomId>>): (g: Graph)
    ensures forall a, b :: HasLink(g, a, b) <==> Linked(groups, a, b)
    ensures forall a :: a in g ==> g[a] != {}
  {
    map a | a in AtomsOf(groups) && PeersOf(groups, a) != {} :: PeersOf(groups, a)
  }

  /** A graph without empty entries is determined by its links. */
  lemma GraphsAreTheirLinks(g: Graph, h: Graph)
    requires forall a, b :: HasLink(g, a, b) <==> HasLink(h, a, b)
    requires (forall a :: a in g ==> g[a] != {}) && (forall a :: a in h ==> h[a] != {})
    ensures g == h
  {
    forall a ensures a in g <==> a in h {
      if a in g {
        var b :| b in g[a];
        assert HasLink(g, a, b);
      }
      if a in h {
        var b :| b in h[a];
        assert HasLink(h, a, b);
      }
    }
    forall a | a in g ensures g[a] == h[a] {
      forall b ensures b in g[a] <==> b in h[a] {
        assert HasLink(g, a, b) <==> HasLink(h, a, b);
      }
    }
  }

  lemma GraphIsSymmetric(groups: seq<seq<AtomId>>, a: AtomId, b: AtomId)
    ensures HasLink(NeighborGraph(groups), a, b) <==> HasLink(NeighborGraph(groups), b, a)
    ensures !HasLink(NeighborGraph(groups), a, a)
  {
  }

  function AddLink(g: Graph, a: AtomId, b: AtomId): Graph {
    g[a := (if a in g then g[a] else {}) + {b}]
  }

  lemma AddLinkLinks(g: Graph, a: AtomId, b: AtomId)
    ensures forall c, d :: HasLink(AddLink(g, a, b), c, d) <==> HasLink(g, c, d) || (c == a && d == b)
    ensures (forall c :: c in g ==> g[c] != {}) ==> forall c :: c in AddLink(g, a, b) ==> AddLink(g, a, b)[c] != {}
  {
  }

  lemma LinkedByOneMore(groups: seq<seq<AtomId>>, i: nat)
    requires i < |groups|
    ensures forall a, b :: Linked(groups[..i + 1], a, b) <==> Linked(groups[..i], a, b) || (a != b && a in groups[i] && b in groups[i])
  {
    var now, before := groups[..i + 1], groups[..i];
    assert now[i] == groups[i];
    assert forall k :: 0 <= k < i ==> now[k] == before[k];
  }

  /** Links of one atom of a group to every other atom of the group. */
  method LinkToPeers(before: Graph, atom: AtomId, group: seq<AtomId>) returns (g: Graph)
    requires forall c :: c in before ==> before[c] != {}
    ensures forall a, b :: HasLink(g, a, b) <==> HasLink(before, a, b) || (a == atom && b in group && b != atom)
    ensures forall c :: c in g ==> g[c] != {}
  {
    g := before;
    for k := 0 to |group|
      invariant forall a, b :: HasLink(g, a, b) <==> HasLink(before, a, b) || (a == atom && b in group[..k] && b != atom)
      invariant forall c :: c in g ==> g[c] != {}
    {
      if group[k] != atom {
        AddLinkLinks(g, atom, group[k]);
        g := AddLink(g, atom, group[k]);
      }
    }
  }

  method LinkGroup(before: Graph, group: seq<AtomId>) returns (g: Graph)
    requires forall c :: c in before ==> before[c] != {}
    ensures forall a, b :: HasLink(g, a, b) <==> HasLink(before, a, b) || (a in group && b in group && a != b)
    ensures forall c :: c in g ==> g[c] != {}
  {
    g := before;
    for j := 0 to |group|
      invariant forall a, b :: HasLink(g, a, b) <==> HasLink(before, a, b) || (a in group[..j] && b in group && a != b)
      invariant forall c :: c in g ==> g[c] != {}
    {
      g := LinkToPeers(g, group[j], group);
    }
  }

  method BuildNeighbors(groups: seq<seq<AtomId>>) returns (g: Graph)
    ensures g == NeighborGraph(groups)
  {
    g := map[];
    for i := 0 to |groups|
      invariant forall a, b :: HasLink(g, a, b) <==> Linked(groups[..i], a, b)
      invariant forall c :: c in g ==> g[c] != {}
    {
      LinkedByOneMore(groups, i);
      g := LinkGroup(g, groups[i]);
    }
    assert groups[..|groups|] == groups;
    GraphsAreTheirLinks(g, NeighborGraph(groups));
  }
}
