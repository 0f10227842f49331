/** Salience decay and archiving: what the consolidation schedule can and cannot
    change about an atom. */
module Consolidation {
  import opened Options
  import opened Reals

  datatype Status = Active | Superseded | Conflicted | Archived | Tombstoned

  datatype AtomType = Episode | OtherType

  /** What consolidation reads and writes of an atom.  Times are microseconds. */
  datatype Atom = Atom(
    salience: real, status: Status, updatedAt: int, lastReinforcedAt: Option<int>,
    supportCount: nat, atomType: AtomType, sourceRefs: nat)

  datatype Policy = Policy(halfLifeDays: int, minimumSalience: real)

  /** The fraction of salience left after an age in microseconds, for a half-life. */
  type Decay = (int, real) -> real

  function Scaled(s: real, x: real): real { s * x }

  ghost predicate Composes(f: Decay, a: int, b: int, h: real) {
    a >= 0 && b >= 0 && h > 0.0 ==> f(a + b, h) == Scaled(f(a, h), f(b, h))
  }

  /** All that is used of exponential decay: it starts at one, falls strictly,
      stays positive, and composes over consecutive periods. */
  ghost predicate IsDecay(f: Decay) {
    && (forall h: real :: h > 0.0 ==> f(0, h) == 1.0)
    && (forall age: int, h: real :: age > 0 && h > 0.0 ==> 0.0 < f(age, h) < 1.0)
    && (forall a: int, b: int, h: real :: Composes(f, a, b, h))
  }

  function Clamp01(v: real): real { Max(0.0, Min(1.0, v)) }

  /** The half-life in days, longer for recognised atoms and shorter for denied ones. */
  function HalfLife(policy: Policy, bias: real): (h: real)
    ensures h > 0.0
  {
    var base := if policy.halfLifeDays > 1 then policy.halfLifeDays as real else 1.0;
    if bias > 0.0 then base * (1.0 + Min(bias, 1.0) * 0.60)
    else if bias < 0.0 then base * Max(0.35, 1.0 - Min(-bias, 1.0) * 0.55)
    else base
  }

  function Anchor(a: Atom): int {
    if a.lastReinforcedAt.Some? then a.lastReinforcedAt.value else a.updatedAt
  }

  function Age(a: Atom, now: int): (age: int)
    ensures age >= 0
  {
    if now > Anchor(a) then now - Anchor(a) else 0
  }

  function Decayed(a: Atom, now: int, policy: Policy, bias: real, f: Decay): real {
    Clamp01(Scaled(a.salience, f(Age(a, now), HalfLife(policy, bias))))
  }

  predicate IsLive(a: Atom) {
    a.status != Tombstoned && a.status != Archived
  }

  predicate WorthArchiving(a: Atom, policy: Policy) {
    a.salience <= policy.minimumSalience && a.supportCount <= 1
  }

  /** One consolidation pass over one atom. */
  function Consolidate(a: Atom, now: int, policy: Policy, bias: real, f: Decay): Atom {
    if !IsLive(a) || a.updatedAt == now then a
    else
      var salience := Decayed(a, now, policy, bias, f);
      var b := if salience < a.salience then a.(salience := salience, updatedAt := now) else a;
      if WorthArchiving(b, policy) then b.(status := Archived, updatedAt := now) else b
  }

  /** Passes at several times, one after the other. */
  function ConsolidateAt(a: Atom, times: seq<int>, policy: Policy, bias: real, f: Decay): Atom
    decreases |times|
  {
    if times == [] then a
    else ConsolidateAt(Consolidate(a, times[0], policy, bias, f), times[1..], policy, bias, f)
  }

  /** As the store validates it. */
  predicate IsValid(a: Atom) {
    0.0 <= a.salience <= 1.0 && a.supportCount > 0
  }

  ghost predicate InOrder(start: int, times: seq<int>) {
    && (forall i :: 0 <= i < |times| ==> start <= times[i])
    && (forall i, j :: 0 <= i < j < |times| ==> times[i] <= times[j])
  }

  // ----- Single passes -----

  lemma ScaleDown(s: real, x: real)
    requires 0.0 <= s <= 1.0 && 0.0 < x <= 1.0
    ensures 0.0 <= Scaled(s, x) <= s && Clamp01(Scaled(s, x)) == Scaled(s, x)
    ensures Scaled(s, x) < s <==> s > 0.0 && x < 1.0
  {
    ProductSign(s, x);
    ProductSign(s, 1.0 - x);
    assert s * (1.0 - x) == s - s * x && Scaled(s, x) == s * x;
  }

  lemma ProductSign(a: real, b: real)
    requires a >= 0.0 && b >= 0.0
    ensures a * b >= 0.0 && (a * b > 0.0 <==> a > 0.0 && b > 0.0)
  {
    if a == 0.0 || b == 0.0 {
      assert a * b == 0.0;
    }
  }

  lemma ScaledTwice(s: real, x: real, y: real)
    ensures Scaled(Scaled(s, x), y) == Scaled(s, Scaled(x, y))
  {
  }

  /** What decay does to a valid atom. */
  lemma DecayedIsScaled(a: Atom, now: int, policy: Policy, bias: real, f: Decay)
    requires IsValid(a) && IsDecay(f)
    ensures var x := f(Age(a, now), HalfLife(policy, bias));
      && 0.0 < x <= 1.0 && (x < 1.0 <==> Age(a, now) > 0)
      && Decayed(a, now, policy, bias, f) == Scaled(a.salience, x) <= a.salience
      && (Decayed(a, now, policy, bias, f) < a.salience <==> a.salience > 0.0 && Age(a, now) > 0)
      && 0.0 <= Scaled(a.salience, x)
  {
    var h := HalfLife(policy, bias);
    var x := f(Age(a, now), h);
    hide HalfLife, Clamp01, Scaled;
    assert 0.0 < x <= 1.0 && (x < 1.0 <==> Age(a, now) > 0);
    ScaleDown(a.salience, x);
  }

  /** Salience never rises, validity is kept, and archiving is final. */
  lemma SalienceNeverRises(a: Atom, now: int, policy: Policy, bias: real, f: Decay)
    requires IsValid(a) && IsDecay(f)
    ensures var b := Consolidate(a, now, policy, bias, f);
      && IsValid(b) && b.salience <= a.salience
      && (!IsLive(a) ==> b == a)
      && b.lastReinforcedAt == a.lastReinforcedAt && b.supportCount == a.supportCount
  {
    hide HalfLife, Decayed;
    DecayedIsScaled(a, now, policy, bias, f);
  }

  /** A second pass at the same time changes nothing. */
  lemma SecondPassIsIdle(a: Atom, now: int, policy: Policy, bias: real, f: Decay)
    ensures var b := Consolidate(a, now, policy, bias, f);
      Consolidate(b, now, policy, bias, f) == b
  {
    hide Decayed;
  }

  // ----- Schedules -----

  /** Two passes agree with the later one alone. */
  lemma TwoPassesAreOne(a: Atom, t1: int, t2: int, policy: Policy, bias: real, f: Decay)
    requires IsValid(a) && IsDecay(f) && a.lastReinforcedAt.None?
    requires a.updatedAt <= t1 <= t2
    ensures var once := Consolidate(a, t2, policy, bias, f);
      var twice := Consolidate(Consolidate(a, t1, policy, bias, f), t2, policy, bias, f);
      && (twice.status == Archived <==> once.status == Archived)
      && (once.status != Archived ==> twice == once)
  {
    hide HalfLife, Decayed;
    DecayedIsScaled(a, t1, policy, bias, f);
    DecayedIsScaled(a, t2, policy, bias, f);
    var b := Consolidate(a, t1, policy, bias, f);
    SalienceNeverRises(a, t1, policy, bias, f);
    DecayedIsScaled(b, t2, policy, bias, f);
    if IsLive(a) && a.updatedAt < t1 && a.salience > 0.0 {
      DecayComposes(a, t1, t2, policy, bias, f);
    }
  }

  /** Decaying to `t1` and from there to `t2` is decaying to `t2`. */
  lemma DecayComposes(a: Atom, t1: int, t2: int, policy: Policy, bias: real, f: Decay)
    requires IsValid(a) && IsDecay(f) && a.lastReinforcedAt.None? && a.updatedAt <= t1 <= t2
    ensures var h := HalfLife(policy, bias);
      var b := a.(salience := Decayed(a, t1, policy, bias, f), updatedAt := t1);
      && Decayed(b, t2, policy, bias, f) == Decayed(a, t2, policy, bias, f)
      && Decayed(a, t2, policy, bias, f) <= Decayed(a, t1, policy, bias, f)
  {
    hide HalfLife, Scaled, Decayed;
    var h := HalfLife(policy, bias);
    var x, y := f(t1 - a.updatedAt, h), f(t2 - t1, h);
    var b := a.(salience := Decayed(a, t1, policy, bias, f), updatedAt := t1);
    DecayedIsScaled(a, t1, policy, bias, f);
    DecayedIsScaled(a, t2, policy, bias, f);
    DecayedIsScaled(b, t2, policy, bias, f);
    assert Composes(f, t1 - a.updatedAt, t2 - t1, h);
    assert (t1 - a.updatedAt) + (t2 - t1) == t2 - a.updatedAt;
    ScaledTwice(a.salience, x, y);
  }

  lemma {:induction false} ArchivedStays(a: Atom, times: seq<int>, policy: Policy, bias: real, f: Decay)
    requires !IsLive(a)
    ensures ConsolidateAt(a, times, policy, bias, f) == a
    decreases |times|
  {
    if times != [] {
      ArchivedStays(a, times[1..], policy, bias, f);
    }
  }

  /** However a period is split into passes, the archive verdict is that of one
      pass at its end; and unless archived the atom is the same in every field. */
  lemma {:induction false} ScheduleDoesNotMatter(a: Atom, times: seq<int>, policy: Policy, bias: real, f: Decay)
    requires IsValid(a) && IsDecay(f) && a.lastReinforcedAt.None?
    requires times != [] && InOrder(a.updatedAt, times)
    ensures var once := Consolidate(a, times[|times| - 1], policy, bias, f);
      var many := ConsolidateAt(a, times, policy, bias, f);
      && (many.status == Archived <==> once.status == Archived)
      && (once.status != Archived ==> many == once)
    decreases |times|
  {
    hide Consolidate, IsDecay;
    var t1, last, rest := times[0], times[|times| - 1], times[1..];
    var b := Consolidate(a, t1, policy, bias, f);
    assert ConsolidateAt(a, times, policy, bias, f) == ConsolidateAt(b, rest, policy, bias, f);
    if rest == [] {
      return;
    }
    assert rest[|rest| - 1] == last;
    TwoPassesAreOne(a, t1, last, policy, bias, f);
    SalienceNeverRises(a, t1, policy, bias, f);
    PassUpdatesTime(a, t1, policy, bias, f);
    if IsLive(b) {
      ScheduleDoesNotMatter(b, rest, policy, bias, f);
    } else {
      ArchivedStays(b, rest, policy, bias, f);
      ArchivedStays(b, [last], policy, bias, f);
      assert ConsolidateAt(b, [last], policy, bias, f) == Consolidate(b, last, policy, bias, f);
    }
  }

  lemma PassUpdatesTime(a: Atom, now: int, policy: Policy, bias: real, f: Decay)
    ensures var b := Consolidate(a, now, policy, bias, f); b.updatedAt == a.updatedAt || b.updatedAt == now
  {
    hide Decayed;
  }

  // ----- Reinforced atoms -----

  /** The same archive verdict, and unless archived the same salience. */
  predicate Agree(a: Atom, b: Atom) {
    (a.status == Archived <==> b.status == Archived) && (a.status != Archived ==> a.salience == b.salience)
  }

  /** One pass at `t` archives the atom whatever happened to its salience before. */
  predicate ArchivedAnyway(a: Atom, t: int, policy: Policy, bias: real, f: Decay) {
    a.supportCount <= 1 && Decayed(a, t, policy, bias, f) <= policy.minimumSalience
  }

  /** A pass at `t1` before one at `t2` makes no difference. */
  predicate IsHarmless(a: Atom, t1: int, t2: int) {
    t1 == a.updatedAt || t1 == t2 || t1 <= Anchor(a)
  }

  /** Two passes agree with the later one alone exactly where no reinforcement is
      recorded, or nothing is left to decay, or the atom ends up archived in any
      case, or the earlier pass does nothing, not being later than the
      reinforcement.  Otherwise the atom is decayed twice from the same instant. */
  lemma TwoPassesAgreeIff(a: Atom, t1: int, t2: int, policy: Policy, bias: real, f: Decay)
    requires IsValid(a) && IsDecay(f) && a.updatedAt <= t1 <= t2
    ensures var once := Consolidate(a, t2, policy, bias, f);
      var twice := Consolidate(Consolidate(a, t1, policy, bias, f), t2, policy, bias, f);
      Agree(twice, once) <==>
        || !IsLive(a) || a.lastReinforcedAt.None? || a.salience == 0.0
        || ArchivedAnyway(a, t2, policy, bias, f) || IsHarmless(a, t1, t2)
  {
    if a.lastReinforcedAt.None? {
      TwoPassesAreOne(a, t1, t2, policy, bias, f);
    } else {
      ReinforcedDecaysTwice(a, t1, t2, policy, bias, f);
    }
  }

  lemma ReinforcedDecaysTwice(a: Atom, t1: int, t2: int, policy: Policy, bias: real, f: Decay)
    requires IsValid(a) && IsDecay(f) && a.updatedAt <= t1 <= t2 && a.lastReinforcedAt.Some?
    ensures var once := Consolidate(a, t2, policy, bias, f);
      var twice := Consolidate(Consolidate(a, t1, policy, bias, f), t2, policy, bias, f);
      && (IsLive(twice) ==> twice.salience <= once.salience)
      && (Agree(twice, once) <==>
            || !IsLive(a) || a.salience == 0.0 || ArchivedAnyway(a, t2, policy, bias, f) || IsHarmless(a, t1, t2))
  {
    hide HalfLife, Decayed, Scaled;
    var h := HalfLife(policy, bias);
    var x, y := f(Age(a, t1), h), f(Age(a, t2), h);
    var b := Consolidate(a, t1, policy, bias, f);
    DecayedIsScaled(a, t1, policy, bias, f);
    DecayedIsScaled(a, t2, policy, bias, f);
    SalienceNeverRises(a, t1, policy, bias, f);
    DecayedIsScaled(b, t2, policy, bias, f);
    ScaleMonotone(b.salience, a.salience, y);
  }

  lemma ScaleMonotone(s: real, t: real, y: real)
    requires 0.0 <= s <= t && 0.0 < y
    ensures Scaled(s, y) <= Scaled(t, y) && (Scaled(s, y) == Scaled(t, y) <==> s == t)
  {
    assert (t - s) * y >= 0.0;
    if s < t {
      assert (t - s) * y > 0.0;
    }
  }

  /** Where any number of passes agree with one at their end. */
  ghost predicate PassesAgree(a: Atom, times: seq<int>, last: int, policy: Policy, bias: real, f: Decay) {
    || !IsLive(a) || a.lastReinforcedAt.None? || a.salience == 0.0
    || ArchivedAnyway(a, last, policy, bias, f)
    || forall i :: 0 <= i < |times| ==> IsHarmless(a, times[i], last)
  }

  lemma DecayedLess(a: Atom, b: Atom, now: int, policy: Policy, bias: real, f: Decay)
    requires IsValid(a) && IsValid(b) && IsDecay(f) && b.salience <= a.salience && Anchor(a) == Anchor(b)
    ensures Decayed(b, now, policy, bias, f) <= Decayed(a, now, policy, bias, f)
    ensures b.salience < a.salience ==> Decayed(b, now, policy, bias, f) < Decayed(a, now, policy, bias, f)
  {
    hide HalfLife, Decayed, Scaled;
    DecayedIsScaled(a, now, policy, bias, f);
    DecayedIsScaled(b, now, policy, bias, f);
    ScaleMonotone(b.salience, a.salience, f(Age(a, now), HalfLife(policy, bias)));
  }

  lemma {:induction false} PassesNeverRaise(a: Atom, times: seq<int>, policy: Policy, bias: real, f: Decay)
    requires IsValid(a) && IsDecay(f)
    ensures ConsolidateAt(a, times, policy, bias, f).salience <= a.salience
    decreases |times|
  {
    hide Consolidate, IsDecay;
    if times != [] {
      SalienceNeverRises(a, times[0], policy, bias, f);
      PassesNeverRaise(Consolidate(a, times[0], policy, bias, f), times[1..], policy, bias, f);
    }
  }

  /** A pass over a live atom, in terms of its decayed salience. */
  lemma PassDecays(a: Atom, now: int, policy: Policy, bias: real, f: Decay)
    requires IsValid(a) && IsDecay(f) && a.updatedAt != now && IsLive(a)
    ensures var b := Consolidate(a, now, policy, bias, f);
      && b.salience == Decayed(a, now, policy, bias, f)
      && (b.status == Archived <==> ArchivedAnyway(a, now, policy, bias, f))
      && (IsLive(b) || b.status == Archived)
  {
    hide HalfLife, Decayed;
    DecayedIsScaled(a, now, policy, bias, f);
  }

  /** However many passes follow, a reinforced atom ends up archived or at most as
      salient as after the last of them alone. */
  lemma {:induction false} PassesStayBelow(a: Atom, times: seq<int>, policy: Policy, bias: real, f: Decay)
    requires IsValid(a) && IsDecay(f) && a.lastReinforcedAt.Some? && IsLive(a)
    requires times != [] && InOrder(a.updatedAt, times) && a.updatedAt < times[|times| - 1]
    ensures var many := ConsolidateAt(a, times, policy, bias, f);
      many.status == Archived || many.salience <= Decayed(a, times[|times| - 1], policy, bias, f)
    decreases |times|
  {
    var t, last, rest := times[0], times[|times| - 1], times[1..];
    var b := Consolidate(a, t, policy, bias, f);
    SalienceNeverRises(a, t, policy, bias, f);
    PassUpdatesTime(a, t, policy, bias, f);
    if t == last {
      PassDecays(a, t, policy, bias, f);
      PassesNeverRaise(b, rest, policy, bias, f);
    } else if !IsLive(b) {
      PassDecaysOrSkips(a, t, policy, bias, f);
      ArchivedStays(b, rest, policy, bias, f);
    } else {
      assert rest[|rest| - 1] == last;
      DecayedLess(a, b, last, policy, bias, f);
      PassesStayBelow(b, rest, policy, bias, f);
    }
    hide *;
    assert ConsolidateAt(a, times, policy, bias, f) == ConsolidateAt(b, rest, policy, bias, f) by {
      FirstPass(a, times, policy, bias, f);
    }
  }

  lemma PassDecaysOrSkips(a: Atom, now: int, policy: Policy, bias: real, f: Decay)
    requires IsLive(a)
    ensures var b := Consolidate(a, now, policy, bias, f); IsLive(b) || b.status == Archived
  {
    hide Decayed;
  }

  lemma FirstPass(a: Atom, times: seq<int>, policy: Policy, bias: real, f: Decay)
    requires times != []
    ensures ConsolidateAt(a, times, policy, bias, f)
         == ConsolidateAt(Consolidate(a, times[0], policy, bias, f), times[1..], policy, bias, f)
  {
  }

  /** After a first pass that makes no difference, the rest of the schedule agrees
      under the same condition. */
  lemma HarmlessPassKeepsCondition(a: Atom, times: seq<int>, policy: Policy, bias: real, f: Decay)
    requires IsValid(a) && IsDecay(f) && a.lastReinforcedAt.Some?
    requires |times| > 1 && InOrder(a.updatedAt, times)
    requires PassesAgree(a, [times[0]], times[|times| - 1], policy, bias, f)
    ensures var b := Consolidate(a, times[0], policy, bias, f);
      PassesAgree(b, times[1..], times[|times| - 1], policy, bias, f) <==>
        PassesAgree(a, times, times[|times| - 1], policy, bias, f)
  {
    var t, last, rest := times[0], times[|times| - 1], times[1..];
    var b := Consolidate(a, t, policy, bias, f);
    SalienceNeverRises(a, t, policy, bias, f);
    DecayedLess(a, b, last, policy, bias, f);
    if !IsLive(a) || a.salience == 0.0 || ArchivedAnyway(a, last, policy, bias, f) {
      return;
    }
    assert IsHarmless(a, [t][0], last);
    DecayedIsScaled(a, t, policy, bias, f);
    DecayedIsScaled(a, last, policy, bias, f);
    hide Decayed, HalfLife, Scaled, IsDecay;
    if t == last {
      assert forall i :: 0 <= i < |rest| ==> rest[i] == times[i + 1] == last;
      assert forall i :: 0 <= i < |times| ==> times[i] == last;
    } else {
      assert b == a;
      assert forall i :: 0 <= i < |rest| ==> rest[i] == times[i + 1];
      assert forall i :: 0 < i < |times| ==> times[i] == rest[i - 1];
    }
  }

  /** Any number of passes agree with one at their end exactly where no
      reinforcement is recorded, or nothing is left to decay, or the atom ends up
      archived in any case, or none of them but those at the end does anything. */
  lemma {:induction false} ManyPassesAgreeIff(a: Atom, times: seq<int>, policy: Policy, bias: real, f: Decay)
    requires IsValid(a) && IsDecay(f) && times != [] && InOrder(a.updatedAt, times)
    ensures var last := times[|times| - 1];
      Agree(ConsolidateAt(a, times, policy, bias, f), Consolidate(a, last, policy, bias, f)) <==>
        PassesAgree(a, times, last, policy, bias, f)
    decreases |times|
  {
    var t, last, rest := times[0], times[|times| - 1], times[1..];
    var b := Consolidate(a, t, policy, bias, f);
    FirstPass(a, times, policy, bias, f);
    if a.lastReinforcedAt.None? {
      ScheduleDoesNotMatter(a, times, policy, bias, f);
      hide *;
    } else if rest == [] {
      assert times == [last];
    } else {
      assert rest[|rest| - 1] == last;
      TwoPassesAgreeIff(a, t, last, policy, bias, f);
      SalienceNeverRises(a, t, policy, bias, f);
      PassUpdatesTime(a, t, policy, bias, f);
      ConditionOnFirst(a, t, last, policy, bias, f);
      if PassesAgree(a, [t], last, policy, bias, f) {
        ManyPassesAgreeIff(b, rest, policy, bias, f);
        HarmlessPassKeepsCondition(a, times, policy, bias, f);
        hide Consolidate, ConsolidateAt, PassesAgree, IsDecay;
      } else {
        HarmfulPassStays(a, times, policy, bias, f);
        assert !PassesAgree(a, times, last, policy, bias, f) by {
          assert times[0] == [t][0];
        }
        hide Consolidate, ConsolidateAt, PassesAgree, IsDecay;
      }
    }
  }

  lemma ConditionOnFirst(a: Atom, t: int, last: int, policy: Policy, bias: real, f: Decay)
    ensures PassesAgree(a, [t], last, policy, bias, f) <==>
      || !IsLive(a) || a.lastReinforcedAt.None? || a.salience == 0.0
      || ArchivedAnyway(a, last, policy, bias, f) || IsHarmless(a, t, last)
  {
    assert [t][0] == t;
  }

  lemma HarmfulPassStays(a: Atom, times: seq<int>, policy: Policy, bias: real, f: Decay)
    requires IsValid(a) && IsDecay(f) && |times| > 1 && InOrder(a.updatedAt, times)
    requires !PassesAgree(a, [times[0]], times[|times| - 1], policy, bias, f)
    ensures !Agree(ConsolidateAt(a, times, policy, bias, f), Consolidate(a, times[|times| - 1], policy, bias, f))
  {
    var t, last, rest := times[0], times[|times| - 1], times[1..];
    var b := Consolidate(a, t, policy, bias, f);
    assert rest[|rest| - 1] == last;
    assert !IsHarmless(a, [t][0], last);
    FirstPass(a, times, policy, bias, f);
    SalienceNeverRises(a, t, policy, bias, f);
    PassUpdatesTime(a, t, policy, bias, f);
    PassDecays(a, t, policy, bias, f);
    PassDecays(a, last, policy, bias, f);
    DecayedIsScaled(a, t, policy, bias, f);
    DecayedLess(a, b, last, policy, bias, f);
    if IsLive(b) {
      PassesStayBelow(b, rest, policy, bias, f);
    } else {
      ArchivedStays(b, rest, policy, bias, f);
    }
    hide Consolidate, ConsolidateAt, Decayed, HalfLife, Scaled, IsDecay;
  }

  /** For instance an atom reinforced at its last update, whatever the decay. */
  lemma ReinforcedAtomDisagrees(policy: Policy, bias: real, f: Decay)
    requires IsDecay(f)
    ensures var a := Atom(1.0, Active, 0, Some(0), 2, Episode, 1);
      !Agree(ConsolidateAt(a, [1, 2], policy, bias, f), Consolidate(a, 2, policy, bias, f))
  {
    var a := Atom(1.0, Active, 0, Some(0), 2, Episode, 1);
    ManyPassesAgreeIff(a, [1, 2], policy, bias, f);
    assert !IsHarmless(a, [1, 2][0], 2);
  }

  // ----- A decay exists -----

  function HalfToThe(n: nat): (x: real)
    ensures 0.0 < x <= 1.0 && (n > 0 ==> x < 1.0)
  {
    if n == 0 then 1.0 else HalfToThe(n - 1) / 2.0
  }

  lemma {:induction false} HalvesCompose(a: nat, b: nat)
    ensures HalfToThe(a + b) == Scaled(HalfToThe(a), HalfToThe(b))
  {
    if a > 0 {
      HalvesCompose(a - 1, b);
      assert HalfToThe(a - 1) / 2.0 * HalfToThe(b) == HalfToThe(a - 1) * HalfToThe(b) / 2.0;
    }
  }

  /** The assumptions on the decay can be met: halving at every microsecond. */
  lemma DecaysExist()
    ensures IsDecay((age: int, h: real) => if age >= 0 then HalfToThe(age) else 1.0)
  {
    var f: Decay := (age: int, h: real) => if age >= 0 then HalfToThe(age) else 1.0;
    forall a: int, b: int, h: real ensures Composes(f, a, b, h) {
      if a >= 0 && b >= 0 {
        HalvesCompose(a, b);
      }
    }
  }
}
