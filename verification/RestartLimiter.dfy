/** Automatic restarts of the runtime by the desktop shell, and their limit.
    Times are in milliseconds. */
module RestartLimiter {
  import opened Sorting

  const FIVE_MINUTES := 5 * 60 * 1000
  const MAX_AUTOMATIC_RESTARTS := 2

  /** An unexpected exit of the runtime, and what the shell knows of its user's wishes. */
  datatype Exit = Exit(now: int, ready: bool, autoStart: bool, wantedStopped: bool)

  /** Left for the user to start, paused after repeated failures, or started again. */
  datatype Verdict = Stopped | Paused | Restarted

  function IsRecent(now: int): int -> bool {
    stamp => now - stamp <= FIVE_MINUTES
  }

  function Registered(history: seq<int>, now: int): seq<int> {
    Filter(history, IsRecent(now)) + [now]
  }

  /** The user wants the runtime to be running. */
  predicate IsRestartable(e: Exit) {
    e.ready && e.autoStart && !e.wantedStopped
  }

  function Decide(e: Exit, attempts: nat): Verdict {
    if !e.ready || !e.autoStart || e.wantedStopped then Stopped
    else if attempts > MAX_AUTOMATIC_RESTARTS then Paused
    else Restarted
  }

  class Shell {
    var restartHistory: seq<int>

    constructor ()
      ensures restartHistory == HistoryAfter([])
    {
      restartHistory := [];
    }

    method RegisterAutomaticRestart(now: int) returns (attempts: nat)
      modifies this
      ensures restartHistory == Registered(old(restartHistory), now)
      ensures attempts == |restartHistory|
    {
      restartHistory := Filter(restartHistory, IsRecent(now));
      restartHistory := restartHistory + [now];
      attempts := |restartHistory|;
    }

    /** The shell that has seen `past` sees one exit more. */
    method HandleUnexpectedRuntimeExit(ghost past: seq<Exit>, e: Exit) returns (verdict: Verdict)
      requires restartHistory == HistoryAfter(past)
      modifies this
      ensures restartHistory == HistoryAfter(past + [e])
      ensures verdict == VerdictOn(past + [e], |past|)
    {
      assert (past + [e])[..|past|] == past && (past + [e])[..|past| + 1] == past + [e];
      var attempts := RegisterAutomaticRestart(e.now);
      if !e.ready || !e.autoStart || e.wantedStopped {
        return Stopped;
      }
      if attempts > MAX_AUTOMATIC_RESTARTS {
        return Paused;
      }
      return Restarted;
    }
  }

  // ----- Runs of exits -----

  function HistoryAfter(exits: seq<Exit>): seq<int>
    decreases |exits|
  {
    if exits == [] then [] else Registered(HistoryAfter(exits[..|exits| - 1]), exits[|exits| - 1].now)
  }

  function VerdictOn(exits: seq<Exit>, k: nat): Verdict
    requires k < |exits|
  {
    Decide(exits[k], |HistoryAfter(exits[..k + 1])|)
  }

  // ----- What the history holds, for any clock -----

  /** Exit `i` is still counted at exit `k`: no exit since has come more than five
      minutes after it. */
  ghost predicate IsRemembered(exits: seq<Exit>, i: nat, k: int) {
    i <= k < |exits| && forall l :: i < l <= k ==> exits[l].now - exits[i].now <= 300_000
  }

  function IsRecentAt(exits: seq<Exit>, now: int): nat -> bool {
    (i: nat) => i < |exits| && now - exits[i].now <= 300_000
  }

  ghost predicate AreWithin(exits: seq<Exit>, idx: seq<nat>) {
    forall j :: 0 <= j < |idx| ==> idx[j] < |exits|
  }

  function StampsAt(exits: seq<Exit>, idx: seq<nat>): (s: seq<int>)
    requires AreWithin(exits, idx)
    ensures |s| == |idx| && forall j :: 0 <= j < |s| ==> s[j] == exits[idx[j]].now
  {
    seq(|idx|, j requires 0 <= j < |idx| => exits[idx[j]].now)
  }

  ghost predicate Ascends(idx: seq<nat>) {
    forall i, j :: 0 <= i < j < |idx| ==> idx[i] < idx[j]
  }

  lemma StampsAppend(exits: seq<Exit>, idx: seq<nat>, i: nat)
    requires AreWithin(exits, idx) && i < |exits|
    ensures StampsAt(exits, idx + [i]) == StampsAt(exits, idx) + [exits[i].now]
  {
  }

  lemma AscendsAppend(idx: seq<nat>, i: nat, p: nat -> bool)
    requires Ascends(idx + [i]) && Ascends(Filter(idx, p))
    ensures Ascends(Filter(idx, p) + [i])
  {
    FilterIn(idx, p);
    hide Filter;
    var kept := Filter(idx, p);
    forall j | 0 <= j < |kept| ensures kept[j] < i {
      assert kept[j] in idx;
      var m :| 0 <= m < |idx| && idx[m] == kept[j];
      assert (idx + [i])[m] < (idx + [i])[|idx|];
    }
  }

  lemma {:induction false} FilterStamps(exits: seq<Exit>, idx: seq<nat>, now: int)
    requires AreWithin(exits, idx) && Ascends(idx)
    ensures var kept := Filter(idx, IsRecentAt(exits, now));
      && AreWithin(exits, kept) && Ascends(kept)
      && Filter(StampsAt(exits, idx), IsRecent(now)) == StampsAt(exits, kept)
    decreases |idx|
  {
    if idx != [] {
      var n := |idx| - 1;
      var front, i := idx[..n], idx[n];
      var kept := Filter(front, IsRecentAt(exits, now));
      assert front + [i] == idx;
      FilterStamps(exits, front, now);
      StampsAppend(exits, front, i);
      StampsAppend(exits, kept, i);
      FilterAppend(front, i, IsRecentAt(exits, now));
      FilterAppend(StampsAt(exits, front), exits[i].now, IsRecent(now));
      AscendsAppend(front, i, IsRecentAt(exits, now));
      hide Filter, Ascends;
    }
  }

  /** The places of the exits still counted after the last one. */
  ghost predicate AreRemembered(exits: seq<Exit>, idx: seq<nat>) {
    && AreWithin(exits, idx) && Ascends(idx)
    && forall i: nat :: i in idx <==> IsRemembered(exits, i, |exits| - 1)
  }

  lemma RememberedStep(front: seq<Exit>, last: Exit, i: nat)
    ensures var exits := front + [last];
      IsRemembered(exits, i, |front|) <==>
        i == |front| || (IsRemembered(front, i, |front| - 1) && IsRecentAt(front, last.now)(i))
  {
    var exits := front + [last];
    if i < |front| && IsRemembered(front, i, |front| - 1) && IsRecentAt(front, last.now)(i) {
      forall l | i < l <= |front| ensures exits[l].now - exits[i].now <= 300_000 {
        assert l < |front| ==> exits[l] == front[l];
      }
    }
    if i < |front| && IsRemembered(exits, i, |front|) {
      assert exits[|front|].now - exits[i].now <= 300_000;
      forall l | i < l <= |front| - 1 ensures front[l].now - front[i].now <= 300_000 {
        assert exits[l] == front[l];
      }
    }
  }

  /** What one more exit does to the places still counted. */
  lemma RememberedGrows(front: seq<Exit>, last: Exit, before: seq<nat>) returns (idx: seq<nat>)
    requires AreRemembered(front, before)
    ensures AreRemembered(front + [last], idx)
    ensures Registered(StampsAt(front, before), last.now) == StampsAt(front + [last], idx)
  {
    FilterStamps(front, before, last.now);
    FilterIn(before, IsRecentAt(front, last.now));
    var kept := Filter(before, IsRecentAt(front, last.now));
    hide Filter;
    idx := kept + [|front|];
    forall i: nat ensures i in idx <==> IsRemembered(front + [last], i, |front|) {
      RememberedStep(front, last, i);
    }
    hide IsRemembered, IsRecentAt;
    assert StampsAt(front + [last], idx) == StampsAt(front, kept) + [last.now];
  }

  /** The history is the stamps of the remembered exits, in order. */
  lemma {:induction false} HistoryIsRemembered(exits: seq<Exit>) returns (idx: seq<nat>)
    ensures AreRemembered(exits, idx) && HistoryAfter(exits) == StampsAt(exits, idx)
    decreases |exits|
  {
    if exits == [] {
      idx := [];
    } else {
      var n := |exits| - 1;
      var front, last := exits[..n], exits[n];
      assert front + [last] == exits;
      var before := HistoryIsRemembered(front);
      idx := RememberedGrows(front, last, before);
      hide AreRemembered, Registered;
    }
  }

  /** Two exits before `k` are remembered at `k`. */
  ghost predicate TwoAreRemembered(exits: seq<Exit>, k: nat) {
    exists i: nat, j: nat :: i < j < k && IsRemembered(exits, i, k) && IsRemembered(exits, j, k)
  }

  lemma RememberedInFront(exits: seq<Exit>, i: nat, k: nat)
    requires k < |exits|
    ensures IsRemembered(exits[..k + 1], i, k) <==> IsRemembered(exits, i, k)
  {
    var run := exits[..k + 1];
    assert forall l :: 0 <= l <= k ==> run[l] == exits[l];
  }

  lemma AttemptsAreRemembered(exits: seq<Exit>, k: nat)
    requires k < |exits|
    ensures |HistoryAfter(exits[..k + 1])| > 2 <==> TwoAreRemembered(exits, k)
  {
    var run := exits[..k + 1];
    var idx := HistoryIsRemembered(run);
    forall i: nat ensures i in idx <==> IsRemembered(exits, i, k) {
      RememberedInFront(exits, i, k);
    }
    hide IsRemembered, HistoryAfter;
    if |idx| > 2 {
      assert idx[0] in idx && idx[1] in idx && idx[2] in idx;
      assert idx[0] < idx[1] < idx[2] <= k;
    }
    if i: nat, j: nat :| i < j < k && IsRemembered(exits, i, k) && IsRemembered(exits, j, k) {
      assert k in idx by { LatestIsRemembered(exits, k); }
      assert i in idx && j in idx;
    }
  }

  lemma LatestIsRemembered(exits: seq<Exit>, k: nat)
    requires k < |exits|
    ensures IsRemembered(exits, k, k)
  {
  }

  /** For any clock: an exit the shell may recover from pauses the restarts exactly
      when two earlier exits are still remembered. */
  lemma PausedIff(exits: seq<Exit>, k: nat)
    requires k < |exits|
    ensures VerdictOn(exits, k) == Paused <==> IsRestartable(exits[k]) && TwoAreRemembered(exits, k)
    ensures VerdictOn(exits, k) == Restarted <==> IsRestartable(exits[k]) && !TwoAreRemembered(exits, k)
  {
    AttemptsAreRemembered(exits, k);
    hide TwoAreRemembered, HistoryAfter;
  }

  // ----- Windows of five minutes -----

  /** The automatic restarts in the five minutes from `t` on, both ends included. */
  ghost function RestartsWithin(exits: seq<Exit>, t: int): set<nat> {
    set k: nat | k < |exits| && VerdictOn(exits, k) == Restarted && t <= exits[k].now <= t + 300_000
  }

  lemma ThreeElements(s: set<nat>) returns (i: nat, j: nat, k: nat)
    requires |s| > 2
    ensures i in s && j in s && k in s && i < j < k
  {
    var a :| a in s;
    assert |s - {a}| > 1;
    var b :| b in s - {a};
    assert |s - {a} - {b}| > 0;
    var c :| c in s - {a} - {b};
    if a < b {
      i, j, k := if c < a then c else a, if c < a then a else if c < b then c else b, if c < b then b else c;
    } else {
      i, j, k := if c < b then c else b, if c < b then b else if c < a then c else a, if c < a then a else c;
    }
  }

  predicate AreClose(a: Exit, b: Exit) {
    -300_000 <= a.now - b.now <= 300_000
  }

  /** Three exits to recover from within five minutes of each other, at none of
      which two earlier exits are remembered. */
  ghost predicate AreThreeUnheeded(exits: seq<Exit>, i: nat, j: nat, k: nat) {
    && i < j < k < |exits|
    && IsRestartable(exits[i]) && IsRestartable(exits[j]) && IsRestartable(exits[k])
    && !TwoAreRemembered(exits, i) && !TwoAreRemembered(exits, j) && !TwoAreRemembered(exits, k)
    && AreClose(exits[i], exits[j]) && AreClose(exits[i], exits[k]) && AreClose(exits[j], exits[k])
  }

  lemma ThreeAreMore(s: set<nat>, i: nat, j: nat, k: nat)
    requires i in s && j in s && k in s && i < j < k
    ensures |s| >= 3
  {
    assert |s - {i} - {j} - {k}| == |s| - 3;
  }

  lemma UnheededFillWindow(exits: seq<Exit>, i: nat, j: nat, k: nat) returns (t: int)
    requires AreThreeUnheeded(exits, i, j, k)
    ensures |RestartsWithin(exits, t)| > 2
  {
    PausedIff(exits, i);
    PausedIff(exits, j);
    PausedIff(exits, k);
    hide VerdictOn, TwoAreRemembered;
    var early := if exits[i].now <= exits[j].now then exits[i].now else exits[j].now;
    t := if early <= exits[k].now then early else exits[k].now;
    ThreeAreMore(RestartsWithin(exits, t), i, j, k);
  }

  lemma FullWindowIsUnheeded(exits: seq<Exit>, t: int) returns (i: nat, j: nat, k: nat)
    requires |RestartsWithin(exits, t)| > 2
    ensures AreThreeUnheeded(exits, i, j, k)
  {
    i, j, k := ThreeElements(RestartsWithin(exits, t));
    PausedIff(exits, i);
    PausedIff(exits, j);
    PausedIff(exits, k);
    hide VerdictOn, TwoAreRemembered;
  }

  /** For any clock and any exits: every closed window of five minutes holds at most
      two automatic restarts if and only if there are no such three exits. */
  lemma WindowsHoldAtMostTwoIff(exits: seq<Exit>)
    ensures (forall t :: |RestartsWithin(exits, t)| <= 2)
       <==> (forall i: nat, j: nat, k: nat :: !AreThreeUnheeded(exits, i, j, k))
  {
    if i: nat, j: nat, k: nat :| AreThreeUnheeded(exits, i, j, k) {
      var t := UnheededFillWindow(exits, i, j, k);
    }
    if t :| |RestartsWithin(exits, t)| > 2 {
      var i, j, k := FullWindowIsUnheeded(exits, t);
    }
    hide *;
  }

  /** Such exits need a clock that was ahead before the last of them. */
  lemma UnheededMeansSetBack(exits: seq<Exit>, i: nat, j: nat, k: nat) returns (l: nat)
    requires AreThreeUnheeded(exits, i, j, k)
    ensures l < k && exits[l].now > exits[k].now
  {
    assert !IsRemembered(exits, i, k) || !IsRemembered(exits, j, k);
    var first := if IsRemembered(exits, i, k) then j else i;
    l :| first < l <= k && exits[l].now - exits[first].now > 300_000;
  }

  // ----- A clock that only advances -----

  ghost predicate ClockAdvances(exits: seq<Exit>) {
    forall i, j :: 0 <= i <= j < |exits| ==> exits[i].now <= exits[j].now
  }

  /** Then remembered means recent. */
  lemma RememberedIsRecent(exits: seq<Exit>, i: nat, k: nat)
    requires ClockAdvances(exits) && i <= k < |exits|
    ensures IsRemembered(exits, i, k) <==> exits[k].now - exits[i].now <= 300_000
  {
    if exits[k].now - exits[i].now <= 300_000 {
      forall l | i < l <= k ensures exits[l].now - exits[i].now <= 300_000 {
        assert exits[l].now <= exits[k].now;
      }
    }
  }

  /** And the restarts are paused exactly at the third exit within five minutes and
      at those that follow it so closely. */
  lemma PausedAtThirdIff(exits: seq<Exit>, k: nat)
    requires ClockAdvances(exits) && k < |exits|
    ensures VerdictOn(exits, k) == Paused <==>
      IsRestartable(exits[k]) && k >= 2 && exits[k].now - exits[k - 2].now <= 300_000
  {
    PausedIff(exits, k);
    if i: nat, j: nat :| i < j < k && IsRemembered(exits, i, k) && IsRemembered(exits, j, k) {
      RememberedIsRecent(exits, i, k);
      assert exits[i].now <= exits[k - 2].now;
    }
    if k >= 2 && exits[k].now - exits[k - 2].now <= 300_000 {
      assert exits[k - 2].now <= exits[k - 1].now;
      RememberedIsRecent(exits, k - 2, k);
      RememberedIsRecent(exits, k - 1, k);
    }
    hide VerdictOn, IsRemembered;
  }

  /** However the runtime exits, every closed window of five minutes holds at
      most two automatic restarts. */
  lemma WindowsHoldAtMostTwo(exits: seq<Exit>, t: int)
    requires ClockAdvances(exits)
    ensures |RestartsWithin(exits, t)| <= 2
  {
    forall i: nat, j: nat, k: nat ensures !AreThreeUnheeded(exits, i, j, k) {
      if i < j < k < |exits| && AreClose(exits[i], exits[k]) && AreClose(exits[j], exits[k]) {
        RememberedIsRecent(exits, i, k);
        RememberedIsRecent(exits, j, k);
        assert TwoAreRemembered(exits, k);
      }
    }
    WindowsHoldAtMostTwoIff(exits);
    hide *;
  }

  lemma HistoryStep(past: seq<Exit>, e: Exit, k: nat)
    requires k < |past|
    ensures HistoryAfter(past + [e]) == Registered(HistoryAfter(past), e.now)
    ensures VerdictOn(past + [e], k) == VerdictOn(past, k)
    ensures VerdictOn(past + [e], |past|) == Decide(e, |HistoryAfter(past + [e])|)
  {
    assert (past + [e])[..|past|] == past && (past + [e])[..|past| + 1] == past + [e];
    assert (past + [e])[..k + 1] == past[..k + 1];
  }

  lemma SetBackHistories()
    ensures Registered([], 0) == [0] && Registered([0], 1) == [0, 1]
    ensures Registered([0, 1], 400_000) == [400_000] && Registered([400_000], 2) == [400_000, 2]
  {
    FilterAppend([], 0, IsRecent(1));
    FilterAppend([], 0, IsRecent(400_000));
    FilterAppend([0], 1, IsRecent(400_000));
    FilterAppend([], 400_000, IsRecent(2));
    assert [] + [0] == [0] && [0] + [1] == [0, 1] && [] + [400_000] == [400_000];
    assert forall p: int -> bool :: Filter([], p) == [];
    hide Filter;
  }

  /** A clock that is set forward and back again makes the shell forget. */
  lemma ClockMustNotRunBack() returns (exits: seq<Exit>)
    ensures |RestartsWithin(exits, 0)| > 2
  {
    var first, second := Exit(0, true, true, false), Exit(1, true, true, false);
    var ahead, back := Exit(400_000, true, true, false), Exit(2, true, true, false);
    exits := [first, second, ahead, back];
    SetBackHistories();
    hide Registered;
    assert [first][..1] == [first] && [first][..0] == [];
    assert HistoryAfter([]) == [];
    assert HistoryAfter([first]) == [0];
    assert VerdictOn([first], 0) == Restarted;
    HistoryStep([first], second, 0);
    HistoryStep([first, second], ahead, 0);
    HistoryStep([first, second], ahead, 1);
    HistoryStep([first, second, ahead], back, 0);
    HistoryStep([first, second, ahead], back, 1);
    assert [first] + [second] == [first, second] && [first, second] + [ahead] == [first, second, ahead];
    assert [first, second, ahead] + [back] == exits;
    hide HistoryAfter, VerdictOn;
    ThreeAreMore(RestartsWithin(exits, 0), 0, 1, 3);
  }
}
