/** The plugin lists kept by the Hermes command line tool, and bringing the
    adapter's entry back to an earlier state. */
module HermesState {

  /** Plugin names: the adapter's own, `mno-memory`, and all others. */
  datatype Name = MnoMemory | OtherPlugin(name: string)

  const PLUGIN_NAME := MnoMemory

  datatype Status = Enabled | Disabled | Neither

  /** The allow-list, the list of disabled plugins, and the capability entries. */
  datatype Hermes = Hermes(enabled: set<Name>, disabled: seq<Name>, entries: set<Name>)

  function StatusOf(h: Hermes): Status {
    if PLUGIN_NAME in h.enabled then Enabled else if PLUGIN_NAME in h.disabled then Disabled else Neither
  }

  /** A list without the adapter's own name. */
  function Others(s: seq<Name>): seq<Name>
  {
    if s == [] then []
    else if s[0] == PLUGIN_NAME then Others(s[1..])
    else [s[0]] + Others(s[1..])
  }

  lemma {:induction false} OthersLeavesNone(s: seq<Name>)
    ensures PLUGIN_NAME !in Others(s)
  {
    if s != [] {
      OthersLeavesNone(s[1..]);
    }
  }

  lemma {:induction false} OthersOfNone(s: seq<Name>)
    requires PLUGIN_NAME !in s
    ensures Others(s) == s
  {
    if s != [] {
      assert forall x :: x in s[1..] ==> x in s;
      OthersOfNone(s[1..]);
    }
  }

  /** Nothing about any other plugin differs. */
  predicate OthersSame(h: Hermes, k: Hermes) {
    && h.enabled - {PLUGIN_NAME} == k.enabled - {PLUGIN_NAME}
    && Others(h.disabled) == Others(k.disabled)
    && h.entries - {PLUGIN_NAME} == k.entries - {PLUGIN_NAME}
  }

  lemma {:induction false} OthersConcat(a: seq<Name>, b: seq<Name>)
    ensures Others(a + b) == Others(a) + Others(b)
  {
    if a == [] {
      assert a + b == b;
    } else {
      assert (a + b)[1..] == a[1..] + b;
      OthersConcat(a[1..], b);
    }
  }

  // ----- The tool's commands on the adapter -----

  function EnableCommand(h: Hermes): (k: Hermes)
    ensures StatusOf(k) == Enabled && PLUGIN_NAME in k.enabled && PLUGIN_NAME in k.entries
  {
    Hermes(h.enabled + {PLUGIN_NAME}, Others(h.disabled), h.entries + {PLUGIN_NAME})
  }

  /** Disabling leaves a tombstone in the list of disabled plugins. */
  function DisableCommand(h: Hermes): (k: Hermes)
    ensures StatusOf(k) == Disabled
  {
    h.(enabled := h.enabled - {PLUGIN_NAME},
       disabled := if PLUGIN_NAME in h.disabled then h.disabled else h.disabled + [PLUGIN_NAME])
  }

  function RemoveAt(s: seq<Name>, i: nat): seq<Name>
    requires i < |s|
  {
    s[..i] + s[i + 1..]
  }

  lemma CommandsKeepOthers(h: Hermes)
    ensures OthersSame(h, EnableCommand(h)) && OthersSame(h, DisableCommand(h))
  {
    OthersConcat(h.disabled, [PLUGIN_NAME]);
    OthersLeavesNone(h.disabled);
    OthersOfNone(Others(h.disabled));
  }

  /** `indexes` are the positions of the adapter's name, in order. */
  ghost predicate AreIndexes(s: seq<Name>, indexes: seq<nat>) {
    && (forall k :: 0 <= k < |indexes| ==> indexes[k] < |s| && s[indexes[k]] == PLUGIN_NAME)
    && (forall j, k :: 0 <= j < k < |indexes| ==> indexes[j] < indexes[k])
    && (forall i :: 0 <= i < |s| && s[i] == PLUGIN_NAME ==> i in indexes)
  }

  method FindIndexes(s: seq<Name>) returns (indexes: seq<nat>)
    ensures AreIndexes(s, indexes)
  {
    indexes := [];
    for i := 0 to |s|
      invariant forall k :: 0 <= k < |indexes| ==> indexes[k] < i && s[indexes[k]] == PLUGIN_NAME
      invariant forall j, k :: 0 <= j < k < |indexes| ==> indexes[j] < indexes[k]
      invariant forall j :: 0 <= j < i && s[j] == PLUGIN_NAME ==> j in indexes
    {
      if s[i] == PLUGIN_NAME {
        indexes := indexes + [i];
      }
    }
  }

  /** From the `k`-th index on, the names are gone; in front nothing has moved. */
  ghost predicate RemovedFrom(s: seq<Name>, indexes: seq<nat>, k: nat, now: seq<Name>)
    requires k <= |indexes| && AreIndexes(s, indexes)
  {
    var cut := if k < |indexes| then indexes[k] else |s|;
    now == s[..cut] + Others(s[cut..])
  }

  lemma NoNameBetween(s: seq<Name>, indexes: seq<nat>, k: nat)
    requires AreIndexes(s, indexes) && k <= |indexes|
    ensures var low := if k > 0 then indexes[k - 1] + 1 else 0;
      var cut := if k < |indexes| then indexes[k] else |s|;
      low <= cut <= |s| && PLUGIN_NAME !in s[low..cut]
  {
    var low := if k > 0 then indexes[k - 1] + 1 else 0;
    var cut := if k < |indexes| then indexes[k] else |s|;
    forall j | low <= j < cut ensures s[j] != PLUGIN_NAME {
      assert s[j] == PLUGIN_NAME ==> j in indexes;
      forall m | 0 <= m < |indexes| ensures indexes[m] != j {
        assert m <= k - 1 ==> indexes[m] <= indexes[k - 1];
        assert m >= k ==> indexes[m] >= indexes[k];
      }
    }
  }

  lemma RemoveFromBack(s: seq<Name>, indexes: seq<nat>, k: nat, now: seq<Name>)
    requires AreIndexes(s, indexes) && 0 < k <= |indexes|
    requires RemovedFrom(s, indexes, k, now)
    ensures indexes[k - 1] < |now| && now[indexes[k - 1]] == PLUGIN_NAME
    ensures RemovedFrom(s, indexes, k - 1, RemoveAt(now, indexes[k - 1]))
  {
    NoNameBetween(s, indexes, k);
    RemoveOne(s, indexes[k - 1], if k < |indexes| then indexes[k] else |s|);
  }

  lemma RemoveOne(s: seq<Name>, i: nat, cut: nat)
    requires i < cut <= |s| && s[i] == PLUGIN_NAME && PLUGIN_NAME !in s[i + 1..cut]
    ensures var now := s[..cut] + Others(s[cut..]);
      RemoveAt(now, i) == s[..i] + Others(s[i..])
  {
    hide *;
    OthersFrom(s, i, cut);
    FrontInThree(s, i, cut, Others(s[cut..]));
    RemoveMiddle(s[..i], s[i], Others(s[i..]));
  }

  lemma OthersFrom(s: seq<Name>, i: nat, cut: nat)
    requires i < cut <= |s| && s[i] == PLUGIN_NAME && PLUGIN_NAME !in s[i + 1..cut]
    ensures Others(s[i..]) == s[i + 1..cut] + Others(s[cut..])
  {
    assert Others(s[i..]) == Others(s[i..][1..]);
    hide *;
    assert s[i..][1..] == s[i + 1..cut] + s[cut..];
    OthersConcat(s[i + 1..cut], s[cut..]);
    OthersOfNone(s[i + 1..cut]);
  }

  lemma FrontInThree(s: seq<Name>, i: nat, cut: nat, rest: seq<Name>)
    requires i < cut <= |s|
    ensures s[..cut] + rest == s[..i] + [s[i]] + (s[i + 1..cut] + rest)
  {
    assert s[..cut] == s[..i] + [s[i]] + s[i + 1..cut];
  }

  lemma RemoveMiddle(a: seq<Name>, x: Name, b: seq<Name>)
    ensures RemoveAt(a + [x] + b, |a|) == a + b
  {
  }

  lemma RemovedNothing(s: seq<Name>, indexes: seq<nat>)
    requires AreIndexes(s, indexes)
    ensures RemovedFrom(s, indexes, |indexes|, s)
  {
    assert s[..|s|] + [] == s;
  }

  lemma OthersOfTail(a: seq<Name>, b: seq<Name>)
    ensures Others(a + Others(b)) == Others(a + b)
    ensures PLUGIN_NAME !in a ==> a + Others(b) == Others(a + b)
  {
    OthersConcat(a, b);
    OthersConcat(a, Others(b));
    OthersLeavesNone(b);
    OthersOfNone(Others(b));
    if PLUGIN_NAME !in a {
      OthersOfNone(a);
    }
  }

  lemma RemovedKeepsOthers(s: seq<Name>, indexes: seq<nat>, k: nat, now: seq<Name>)
    requires AreIndexes(s, indexes) && k <= |indexes| && RemovedFrom(s, indexes, k, now)
    ensures Others(now) == Others(s)
  {
    hide Others;
    var cut := if k < |indexes| then indexes[k] else |s|;
    OthersOfTail(s[..cut], s[cut..]);
    assert s[..cut] + s[cut..] == s;
  }

  lemma AllRemoved(s: seq<Name>, indexes: seq<nat>, now: seq<Name>)
    requires AreIndexes(s, indexes) && RemovedFrom(s, indexes, 0, now)
    ensures now == Others(s)
  {
    hide Others;
    NoNameBetween(s, indexes, 0);
    RemoveNone(s, if 0 < |indexes| then indexes[0] else |s|);
  }

  lemma CutInTwo(s: seq<Name>, cut: nat)
    requires cut <= |s|
    ensures s[..cut] == s[0..cut] && s[..cut] + s[cut..] == s
  {
  }

  lemma RemoveNone(s: seq<Name>, cut: nat)
    requires cut <= |s| && PLUGIN_NAME !in s[0..cut]
    ensures s[..cut] + Others(s[cut..]) == Others(s)
  {
    hide *;
    CutInTwo(s, cut);
    OthersOfTail(s[..cut], s[cut..]);
  }

  /** Removing in the order found would shift the later positions: of two
      adjacent tombstones the second removal hits another plugin. */
  lemma ForwardRemovalIsWrong(other: Name)
    requires other != PLUGIN_NAME
    ensures var s := [PLUGIN_NAME, PLUGIN_NAME, other];
      AreIndexes(s, [0, 1]) && RemoveAt(RemoveAt(s, 0), 1) == [PLUGIN_NAME]
  {
    var s := [PLUGIN_NAME, PLUGIN_NAME, other];
    assert forall i :: 0 <= i < |s| && s[i] == PLUGIN_NAME ==> i == [0, 1][i];
  }
}
