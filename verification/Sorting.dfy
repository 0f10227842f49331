/** The host language's stable sort, as insertion behind everything not greater. */
module Sorting {

  /** A total preorder: any two elements compare, and comparing is transitive. */
  ghost predicate IsOrder<T(!new)>(le: (T, T) -> bool) {
    (forall x, y :: le(x, y) || le(y, x)) && (forall x, y, z :: le(x, y) && le(y, z) ==> le(x, z))
  }

  predicate IsSorted<T>(s: seq<T>, le: (T, T) -> bool) {
    forall i, j :: 0 <= i < j < |s| ==> le(s[i], s[j])
  }

  /** `x` behind the last element it does not precede. */
  function Insert<T>(s: seq<T>, x: T, le: (T, T) -> bool): (r: seq<T>)
    decreases |s|
  {
    if s == [] || le(s[|s| - 1], x) then s + [x] else Insert(s[..|s| - 1], x, le) + [s[|s| - 1]]
  }

  function SortBy<T>(s: seq<T>, le: (T, T) -> bool): (r: seq<T>)
    decreases |s|
  {
    if s == [] then [] else Insert(SortBy(s[..|s| - 1], le), s[|s| - 1], le)
  }

  function Filter<T>(s: seq<T>, p: T -> bool): (r: seq<T>)
    decreases |s|
  {
    if s == [] then []
    else if p(s[|s| - 1]) then Filter(s[..|s| - 1], p) + [s[|s| - 1]]
    else Filter(s[..|s| - 1], p)
  }

  lemma FilterAppend<T>(s: seq<T>, x: T, p: T -> bool)
    ensures Filter(s + [x], p) == if p(x) then Filter(s, p) + [x] else Filter(s, p)
  {
    assert (s + [x])[..|s|] == s;
  }

  lemma {:induction false} FilterConcat<T>(s: seq<T>, t: seq<T>, p: T -> bool)
    ensures Filter(s + t, p) == Filter(s, p) + Filter(t, p)
    decreases |t|
  {
    if t == [] {
      assert s + t == s;
    } else {
      var n := |t| - 1;
      assert s + t == (s + t[..n]) + [t[n]];
      FilterConcat(s, t[..n], p);
      FilterAppend(s + t[..n], t[n], p);
      assert t[..n] + [t[n]] == t;
      FilterAppend(t[..n], t[n], p);
    }
  }

  lemma {:induction false} FilterIn<T>(s: seq<T>, p: T -> bool)
    ensures forall x :: x in Filter(s, p) <==> x in s && p(x)
    decreases |s|
  {
    if s != [] {
      FilterIn(s[..|s| - 1], p);
      assert s == s[..|s| - 1] + [s[|s| - 1]];
    }
  }

  lemma {:induction false} FilterSame<T>(s: seq<T>, p: T -> bool, q: T -> bool)
    requires forall i :: 0 <= i < |s| ==> p(s[i]) == q(s[i])
    ensures Filter(s, p) == Filter(s, q)
    decreases |s|
  {
    if s != [] {
      FilterSame(s[..|s| - 1], p, q);
    }
  }

  lemma {:induction false} FilterSplits<T>(s: seq<T>, p: T -> bool, q: T -> bool, r: T -> bool)
    requires forall i :: 0 <= i < |s| ==> (r(s[i]) <==> p(s[i]) || q(s[i])) && !(p(s[i]) && q(s[i]))
    ensures multiset(Filter(s, r)) == multiset(Filter(s, p)) + multiset(Filter(s, q))
    decreases |s|
  {
    if s != [] {
      FilterSplits(s[..|s| - 1], p, q, r);
    }
  }

  lemma {:induction false} FilterAll<T>(s: seq<T>, p: T -> bool)
    requires forall i :: 0 <= i < |s| ==> p(s[i])
    ensures Filter(s, p) == s
    decreases |s|
  {
    if s != [] {
      FilterAll(s[..|s| - 1], p);
      assert s == s[..|s| - 1] + [s[|s| - 1]];
    }
  }

  lemma WithoutOne<T>(s: seq<T>, i: nat)
    requires i < |s|
    ensures multiset(s[..i] + s[i + 1..]) == multiset(s) - multiset{s[i]}
  {
    assert s == s[..i] + [s[i]] + s[i + 1..];
  }

  /** Of two arrangements of the same elements, the first element of one and its
      place in the other; the rest are arrangements of the same elements again. */
  lemma TakeFirst<T>(a: seq<T>, b: seq<T>) returns (i: nat)
    requires multiset(a) == multiset(b) && a != []
    ensures i < |b| && b[i] == a[0]
    ensures multiset(a[1..]) == multiset(b[..i] + b[i + 1..])
  {
    assert a[0] in multiset(b);
    i :| 0 <= i < |b| && b[i] == a[0];
    WithoutOne(a, 0);
    assert a[..0] + a[1..] == a[1..];
    WithoutOne(b, i);
  }

  lemma NothingLeft<T>(b: seq<T>)
    requires multiset(b) == multiset{}
    ensures b == []
  {
    assert |multiset(b)| == |b|;
  }

  lemma {:induction false} InsertKeepsElements<T>(s: seq<T>, x: T, le: (T, T) -> bool)
    ensures multiset(Insert(s, x, le)) == multiset(s) + multiset{x}
    ensures |Insert(s, x, le)| == |s| + 1
    decreases |s|
  {
    if s != [] && !le(s[|s| - 1], x) {
      InsertKeepsElements(s[..|s| - 1], x, le);
      assert s == s[..|s| - 1] + [s[|s| - 1]];
    }
  }

  /** Sorting rearranges. */
  lemma {:induction false} SortKeepsElements<T>(s: seq<T>, le: (T, T) -> bool)
    ensures multiset(SortBy(s, le)) == multiset(s) && |SortBy(s, le)| == |s|
    decreases |s|
  {
    if s != [] {
      SortKeepsElements(s[..|s| - 1], le);
      InsertKeepsElements(SortBy(s[..|s| - 1], le), s[|s| - 1], le);
      assert s == s[..|s| - 1] + [s[|s| - 1]];
    }
  }

  lemma {:induction false} InsertSorts<T(!new)>(s: seq<T>, x: T, le: (T, T) -> bool)
    requires IsOrder(le) && IsSorted(s, le)
    ensures IsSorted(Insert(s, x, le), le)
    decreases |s|
  {
    if s != [] && !le(s[|s| - 1], x) {
      var front, last := s[..|s| - 1], s[|s| - 1];
      InsertSorts(front, x, le);
      InsertKeepsElements(front, x, le);
      var r := Insert(front, x, le);
      forall i | 0 <= i < |r| ensures le(r[i], last) {
        assert r[i] in multiset(r);
        assert r[i] in front || r[i] == x;
      }
    }
  }

  /** Sorting sorts. */
  lemma {:induction false} SortSorts<T(!new)>(s: seq<T>, le: (T, T) -> bool)
    requires IsOrder(le)
    ensures IsSorted(SortBy(s, le), le)
    decreases |s|
  {
    if s != [] {
      SortSorts(s[..|s| - 1], le);
      InsertSorts(SortBy(s[..|s| - 1], le), s[|s| - 1], le);
    }
  }

  lemma InsertBefore<T>(s: seq<T>, last: T, x: T, le: (T, T) -> bool)
    requires !le(last, x)
    ensures Insert(s + [last], x, le) == Insert(s, x, le) + [last]
  {
    assert (s + [last])[..|s|] == s;
  }

  lemma InsertBehind<T>(s: seq<T>, x: T, le: (T, T) -> bool)
    requires s == [] || le(s[|s| - 1], x)
    ensures Insert(s, x, le) == s + [x]
  {
  }

  lemma SortAppend<T>(s: seq<T>, x: T, le: (T, T) -> bool)
    ensures SortBy(s + [x], le) == Insert(SortBy(s, le), x, le)
  {
    assert (s + [x])[..|s|] == s;
  }

  lemma LastOfFiltered<T(!new)>(s: seq<T>, x: T, le: (T, T) -> bool, p: T -> bool)
    requires IsOrder(le) && IsSorted(s, le) && (s == [] || le(s[|s| - 1], x))
    ensures var f := Filter(s, p); f == [] || le(f[|f| - 1], x)
  {
    FilterIn(s, p);
    hide Filter;
    var f := Filter(s, p);
    if f != [] {
      assert f[|f| - 1] in Filter(s, p);
      var i :| 0 <= i < |s| && s[i] == f[|f| - 1];
      assert le(s[i], s[|s| - 1]);
    }
  }

  lemma SortedFront<T>(s: seq<T>, le: (T, T) -> bool)
    requires IsSorted(s, le) && s != []
    ensures IsSorted(s[..|s| - 1], le)
  {
  }

  lemma {:induction false} InsertCommutesWithFilter<T(!new)>(s: seq<T>, x: T, le: (T, T) -> bool, p: T -> bool)
    requires IsOrder(le) && IsSorted(s, le)
    ensures Filter(Insert(s, x, le), p) == if p(x) then Insert(Filter(s, p), x, le) else Filter(s, p)
    decreases |s|
  {
    if s == [] || le(s[|s| - 1], x) {
      InsertBehind(s, x, le);
      FilterAppend(s, x, p);
      LastOfFiltered(s, x, le, p);
      InsertBehind(Filter(s, p), x, le);
    } else {
      var front, last := s[..|s| - 1], s[|s| - 1];
      SortedFront(s, le);
      hide IsOrder, IsSorted;
      InsertCommutesWithFilter(front, x, le, p);
      assert front + [last] == s;
      InsertBefore(front, last, x, le);
      InsertBefore(Filter(front, p), last, x, le);
      FilterAppend(Insert(front, x, le), last, p);
      FilterAppend(front, last, p);
      hide Filter, Insert;
    }
  }

  /** The sort is stable: sorting and then keeping some elements is keeping them
      and then sorting.  In particular elements that compare equal keep their order. */
  lemma {:induction false} SortCommutesWithFilter<T(!new)>(s: seq<T>, le: (T, T) -> bool, p: T -> bool)
    requires IsOrder(le)
    ensures Filter(SortBy(s, le), p) == SortBy(Filter(s, p), le)
    decreases |s|
  {
    if s != [] {
      var front, last := s[..|s| - 1], s[|s| - 1];
      assert front + [last] == s;
      hide IsOrder, IsSorted;
      SortCommutesWithFilter(front, le, p);
      SortSorts(front, le);
      InsertCommutesWithFilter(SortBy(front, le), last, le, p);
      SortAppend(front, last, le);
      SortAppend(Filter(front, p), last, le);
      FilterAppend(front, last, p);
      hide *;
    }
  }

  /** What is in order already stays as it is. */
  lemma {:induction false} SortingSortedIsIdle<T>(s: seq<T>, le: (T, T) -> bool)
    requires IsSorted(s, le)
    ensures SortBy(s, le) == s
    decreases |s|
  {
    if s != [] {
      SortingSortedIsIdle(s[..|s| - 1], le);
      assert s == s[..|s| - 1] + [s[|s| - 1]];
      if |s| > 1 {
        assert le(s[|s| - 2], s[|s| - 1]);
      }
    }
  }

  /** Strings compare character by character. */
  predicate TextLeq(s: string, t: string)
    decreases |s|
  {
    s == [] || (t != [] && (s[0] < t[0] || (s[0] == t[0] && TextLeq(s[1..], t[1..]))))
  }

  lemma {:induction false} TextOrder(s: string, t: string, u: string)
    ensures TextLeq(s, t) || TextLeq(t, s)
    ensures TextLeq(s, t) && TextLeq(t, u) ==> TextLeq(s, u)
    ensures TextLeq(s, t) && TextLeq(t, s) ==> s == t
    decreases |s|
  {
    if s != [] && t != [] {
      TextOrder(s[1..], t[1..], if u == [] then [] else u[1..]);
      assert s == [s[0]] + s[1..] && t == [t[0]] + t[1..];
    }
  }
}
