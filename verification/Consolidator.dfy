/** The maintenance pass over the store's atom objects, updated in place. */
module Consolidator {
  import opened Consolidation
  import opened Options

  /** Whether a pass lowers the salience, and whether it archives. */
  predicate WillDecay(a: Atom, now: int, policy: Policy, bias: real, f: Decay) {
    Consolidate(a, now, policy, bias, f).salience < a.salience
  }

  predicate WillArchive(a: Atom, now: int, policy: Policy, bias: real, f: Decay) {
    IsLive(a) && Consolidate(a, now, policy, bias, f).status == Archived
  }

  class MemoryAtom {
    const id: string
    const atomType: AtomType
    const sourceRefs: nat
    const supportCount: nat
    const lastReinforcedAt: Option<int>
    var salience: real
    var status: Status
    var updatedAt: int

    constructor (id: string, a: Atom)
      ensures this.id == id && State() == a
    {
      this.id := id;
      atomType, sourceRefs, supportCount := a.atomType, a.sourceRefs, a.supportCount;
      lastReinforcedAt := a.lastReinforcedAt;
      salience, status, updatedAt := a.salience, a.status, a.updatedAt;
    }

    function State(): Atom
      reads this
    {
      Atom(salience, status, updatedAt, lastReinforcedAt, supportCount, atomType, sourceRefs)
    }

    /** The pass over this atom. */
    method Visit(now: int, policy: Policy, bias: real, f: Decay) returns (decayed: bool, archived: bool)
      modifies this
      ensures State() == Consolidate(old(State()), now, policy, bias, f)
      ensures decayed == WillDecay(old(State()), now, policy, bias, f)
      ensures archived == WillArchive(old(State()), now, policy, bias, f)
    {
      hide Decayed;
      decayed, archived := false, false;
      if status == Tombstoned || status == Archived || updatedAt == now {
        return;
      }
      var left := Decayed(State(), now, policy, bias, f);
      if left < salience {
        salience := left;
        updatedAt := now;
        decayed := true;
      }
      if salience <= policy.minimumSalience && supportCount <= 1 {
        status := Archived;
        updatedAt := now;
        archived := true;
      }
    }
  }

  /** An active episode supported often enough to be promoted to a fact. */
  predicate IsPromotable(a: Atom) {
    a.status == Active && a.atomType == Episode && (a.supportCount >= 3 || a.sourceRefs >= 3)
  }

  ghost function States(atoms: seq<MemoryAtom>): (states: seq<Atom>)
    reads set i | 0 <= i < |atoms| :: atoms[i]
    ensures |states| == |atoms| && forall i :: 0 <= i < |atoms| ==> states[i] == atoms[i].State()
  {
    seq(|atoms|, i requires 0 <= i < |atoms| reads set j | 0 <= j < |atoms| :: atoms[j] => atoms[i].State())
  }

  /** How many of the first `n` atoms a pass decays, and how many it archives. */
  ghost function DecayCount(before: seq<Atom>, ids: seq<string>, n: nat, now: int, policy: Policy, bias: string -> real, f: Decay): nat
    requires n <= |before| == |ids|
    decreases n
  {
    if n == 0 then 0
    else DecayCount(before, ids, n - 1, now, policy, bias, f)
         + if WillDecay(before[n - 1], now, policy, bias(ids[n - 1]), f) then 1 else 0
  }

  ghost function ArchiveCount(before: seq<Atom>, ids: seq<string>, n: nat, now: int, policy: Policy, bias: string -> real, f: Decay): nat
    requires n <= |before| == |ids|
    decreases n
  {
    if n == 0 then 0
    else ArchiveCount(before, ids, n - 1, now, policy, bias, f)
         + if WillArchive(before[n - 1], now, policy, bias(ids[n - 1]), f) then 1 else 0
  }

  ghost function Ids(atoms: seq<MemoryAtom>): seq<string> {
    seq(|atoms|, i requires 0 <= i < |atoms| => atoms[i].id)
  }

  /** The promotable ones of the first `n` atoms, in order. */
  ghost function Promotable(atoms: seq<MemoryAtom>, n: nat): seq<MemoryAtom>
    requires n <= |atoms|
    reads set i | 0 <= i < |atoms| :: atoms[i]
    decreases n
  {
    if n == 0 then []
    else Promotable(atoms, n - 1) + if IsPromotable(atoms[n - 1].State()) then [atoms[n - 1]] else []
  }

  method SemanticCandidates(atoms: seq<MemoryAtom>) returns (promoted: seq<MemoryAtom>)
    ensures promoted == Promotable(atoms, |atoms|)
    ensures forall a :: a in promoted <==> a in atoms && IsPromotable(a.State())
  {
    promoted := [];
    for i := 0 to |atoms|
      invariant promoted == Promotable(atoms, i)
      invariant forall a :: a in promoted <==> a in atoms[..i] && IsPromotable(a.State())
    {
      if atoms[i].status != Active || atoms[i].atomType != Episode {
        continue;
      }
      var effectiveSupport := if atoms[i].supportCount > atoms[i].sourceRefs then atoms[i].supportCount else atoms[i].sourceRefs;
      if effectiveSupport < 3 {
        continue;
      }
      promoted := promoted + [atoms[i]];
    }
  }

  /** The decay loop.  `bias` reads an atom's recognition bias. */
  method DecayAll(atoms: seq<MemoryAtom>, now: int, policy: Policy, bias: string -> real, f: Decay)
    returns (decayed: nat, archived: nat)
    requires forall i, j :: 0 <= i < j < |atoms| ==> atoms[i] != atoms[j]
    modifies set i | 0 <= i < |atoms| :: atoms[i]
    ensures forall i :: 0 <= i < |atoms| ==>
      atoms[i].State() == Consolidate(old(atoms[i].State()), now, policy, bias(atoms[i].id), f)
    ensures decayed == DecayCount(old(States(atoms)), Ids(atoms), |atoms|, now, policy, bias, f)
    ensures archived == ArchiveCount(old(States(atoms)), Ids(atoms), |atoms|, now, policy, bias, f)
  {
    hide Consolidate, WillDecay, WillArchive;
    ghost var before := States(atoms);
    decayed, archived := 0, 0;
    for i := 0 to |atoms|
      invariant forall k :: 0 <= k < i ==> atoms[k].State() == Consolidate(before[k], now, policy, bias(atoms[k].id), f)
      invariant forall k :: i <= k < |atoms| ==> atoms[k].State() == before[k]
      invariant decayed == DecayCount(before, Ids(atoms), i, now, policy, bias, f)
      invariant archived == ArchiveCount(before, Ids(atoms), i, now, policy, bias, f)
    {
      var d, a := atoms[i].Visit(now, policy, bias(atoms[i].id), f);
      decayed := decayed + if d then 1 else 0;
      archived := archived + if a then 1 else 0;
    }
  }

  /** One pass. */
  method Run(atoms: seq<MemoryAtom>, now: int, policy: Policy, bias: string -> real, f: Decay)
    returns (decayed: nat, archived: nat, promoted: seq<MemoryAtom>)
    requires forall i, j :: 0 <= i < j < |atoms| ==> atoms[i] != atoms[j]
    modifies set i | 0 <= i < |atoms| :: atoms[i]
    ensures forall i :: 0 <= i < |atoms| ==>
      atoms[i].State() == Consolidate(old(atoms[i].State()), now, policy, bias(atoms[i].id), f)
    ensures decayed == DecayCount(old(States(atoms)), Ids(atoms), |atoms|, now, policy, bias, f)
    ensures archived == ArchiveCount(old(States(atoms)), Ids(atoms), |atoms|, now, policy, bias, f)
    ensures promoted == Promotable(atoms, |atoms|)
    ensures forall a :: a in promoted <==> a in atoms && IsPromotable(a.State())
  {
    hide Consolidate, DecayCount, ArchiveCount, Promotable, IsPromotable, Ids;
    decayed, archived := DecayAll(atoms, now, policy, bias, f);
    promoted := SemanticCandidates(atoms);
  }
}
