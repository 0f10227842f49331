/** What one consolidation pass does to an atom, told without its steps. */
module ConsolidationPass {
  import opened Consolidation
  import opened Options

  /** When decay starts to count: the last reinforcement, or else the last update. */
  predicate IsAnchor(a: Atom, start: int) {
    match a.lastReinforcedAt
    case Some(t) => start == t
    case None => start == a.updatedAt
  }

  /** The half-life before recognition, at least a day. */
  function Days(policy: Policy): (days: real)
    ensures days >= 1.0
  {
    if policy.halfLifeDays < 1 then 1.0 else policy.halfLifeDays as real
  }

  function Part(bias: real, days: real): real { bias * days }

  function Stretched(bias: real, days: real, part: real): real {
    if bias >= 1.0 then 1.60 * days
    else if bias <= -1.0 then 0.45 * days
    else if bias >= 0.0 then days + 0.60 * part
    else days + 0.55 * part
  }

  /** Of the half-life, sixty parts in a hundred more for full recognition, fifty-five
      less for full denial, and in between in proportion. */
  lemma HalfLifeIs(policy: Policy, bias: real)
    ensures HalfLife(policy, bias) == Stretched(bias, Days(policy), Part(bias, Days(policy)))
  {
  }

  /** Recognised longer and denied shorter, up to a point. */
  lemma HalfLifeGrows(policy: Policy, low: real, high: real)
    requires low <= high
    ensures HalfLife(policy, low) <= HalfLife(policy, high)
    ensures HalfLife(policy, low) == HalfLife(policy, high)
      <==> low == high || low >= 1.0 || high <= -1.0
  {
    hide *;
    HalfLifeIs(policy, low);
    HalfLifeIs(policy, high);
    var days := Days(policy);
    Steeper(low, high, days);
    Steeper(low, 0.0, days);
    Steeper(0.0, high, days);
    Steeper(low, 1.0, days);
    Steeper(-1.0, high, days);
    PartsOfNothing(days);
    Compare(low, high, days, Part(low, days), Part(high, days));
  }

  lemma Steeper(low: real, high: real, days: real)
    requires days > 0.0
    ensures low < high ==> Part(low, days) < Part(high, days)
  {
    if low < high {
      assert (high - low) * days > 0.0;
    }
  }

  lemma PartsOfNothing(days: real)
    ensures Part(0.0, days) == 0.0 && Part(1.0, days) == days && Part(-1.0, days) == -days
  {
  }

  lemma Compare(low: real, high: real, days: real, a: real, b: real)
    requires days > 0.0 && low <= high && (low < high ==> a < b) && (low == high ==> a == b)
    requires (low < 0.0 ==> a < 0.0) && (low == 0.0 ==> a == 0.0) && (high > 0.0 ==> b > 0.0) && (high == 0.0 ==> b == 0.0)
    requires (low < 1.0 ==> a < days) && (high > -1.0 ==> b > -days)
    ensures Stretched(low, days, a) <= Stretched(high, days, b)
    ensures Stretched(low, days, a) == Stretched(high, days, b) <==> low == high || low >= 1.0 || high <= -1.0
  {
  }

  /** An atom that is out of use, or has been updated at this very time, is left alone.
      Any other keeps of its salience what decay leaves since its anchor, all of it if
      that is not in the past; is archived exactly if what it keeps is at most the
      minimum and it has no more than one support; is marked as updated exactly if its
      salience fell or it was archived; and is the same in everything else. */
  lemma PassIs(a: Atom, now: int, policy: Policy, bias: real, f: Decay, start: int)
    requires IsValid(a) && IsDecay(f) && IsAnchor(a, start)
    ensures var b := Consolidate(a, now, policy, bias, f);
      var isLeft := a.status == Tombstoned || a.status == Archived || a.updatedAt == now;
      var left := if now > start then a.salience * f(now - start, HalfLife(policy, bias)) else a.salience;
      && (isLeft ==> b == a)
      && (!isLeft ==>
            && b.salience == left
            && (b.status == Archived <==> left <= policy.minimumSalience && a.supportCount < 2)
            && (b.status != Archived ==> b.status == a.status)
            && b.updatedAt == (if left < a.salience || b.status == Archived then now else a.updatedAt)
            && b == a.(salience := b.salience, status := b.status, updatedAt := b.updatedAt))
  {
    DecayedIsScaled(a, now, policy, bias, f);
    assert Age(a, now) == 0 ==> f(Age(a, now), HalfLife(policy, bias)) == 1.0;
    hide HalfLife, Decayed, IsDecay;
  }
}
