/** The best-first search over (cell, incoming direction) states, with lazy
    deletion of superseded heap entries, and the walk back along `came`. */
module RouteSearch {
  import opened RouteGrid

  datatype State = State(cell: Cell, dir: int)

  datatype Entry = Entry(priority: int, cost: int, state: State)

  /** The search's mutable tables: best known cost, predecessor, and heap. */
  datatype Tables = Tables(cost: map<State, int>, came: map<State, State>, heap: multiset<Entry>)

  predicate ValidState(w: World, s: State) {
    InGrid(w, s.cell) && NO_DIRECTION <= s.dir < 4
  }

  /** Heap order: tuples compare component by component. */
  predicate StateLeq(a: State, b: State) {
    if a.cell.x != b.cell.x then a.cell.x < b.cell.x
    else if a.cell.y != b.cell.y then a.cell.y < b.cell.y
    else a.dir <= b.dir
  }

  predicate EntryLeq(a: Entry, b: Entry) {
    if a.priority != b.priority then a.priority < b.priority
    else if a.cost != b.cost then a.cost < b.cost
    else StateLeq(a.state, b.state)
  }

  lemma EntryOrder(a: Entry, b: Entry, c: Entry)
    ensures EntryLeq(a, b) || EntryLeq(b, a)
    ensures EntryLeq(a, b) && EntryLeq(b, c) ==> EntryLeq(a, c)
  {
  }

  lemma LeastEntryExists(heap: multiset<Entry>) returns (least: Entry)
    requires heap != multiset{}
    ensures least in heap && forall f :: f in heap ==> EntryLeq(least, f)
    decreases |heap|
  {
    var e :| e in heap;
    var rest := heap - multiset{e};
    least := e;
    if rest == multiset{} {
      assert heap == multiset{e};
    } else {
      var m := LeastEntryExists(rest);
      EntryOrder(e, m, m);
      least := if EntryLeq(e, m) then e else m;
      forall f | f in heap ensures EntryLeq(least, f) {
        assert f == e || f in rest;
        EntryOrder(least, m, f);
      }
    }
  }

  method PopMin(heap: multiset<Entry>) returns (e: Entry, rest: multiset<Entry>)
    requires heap != multiset{}
    ensures e in heap && rest == heap - multiset{e}
    ensures forall f :: f in heap ==> EntryLeq(e, f)
  {
    ghost var least := LeastEntryExists(heap);
    e :| e in heap && forall f :: f in heap ==> EntryLeq(e, f);
    rest := heap - multiset{e};
  }

  function OpenEntry(end: Cell, cost: int, s: State): Entry {
    Entry(cost + Heuristic(end, s.cell), cost, s)
  }

  // ----- What holds between iterations -----

  /** Every heap entry is for a costed state, no cheaper than its cost. */
  ghost predicate HeapOk(end: Cell, t: Tables, level: int) {
    forall e :: e in t.heap ==>
      && e.state in t.cost
      && t.cost[e.state] <= e.cost
      && e.priority == e.cost + Heuristic(end, e.state.cell)
      && level <= e.priority
  }

  /** A state not yet expanded sits in the heap once at its current cost. */
  ghost predicate OpenOk(end: Cell, t: Tables, closed: set<State>) {
    forall s :: s in t.cost && s !in closed ==> t.heap[OpenEntry(end, t.cost[s], s)] == 1
  }

  /** An expanded state is settled: below the level, and only superseded
      entries for it remain. */
  ghost predicate ClosedOk(end: Cell, t: Tables, closed: set<State>, level: int) {
    && (forall s :: s in closed ==> s in t.cost && s.cell != end && t.cost[s] + Heuristic(end, s.cell) <= level)
    && (forall e :: e in t.heap && e.state in closed ==> e.state in t.cost && t.cost[e.state] < e.cost)
  }

  /** The edge out of `s` in direction `dir` has been accounted for. */
  ghost predicate EdgeDone(w: World, t: Tables, s: State, dir: int)
    requires 0 <= dir < 4 && s in t.cost
  {
    var n := Neighbor(s.cell, dir);
    Free(w, n) ==>
      State(n, dir) in t.cost && t.cost[State(n, dir)] <= t.cost[s] + StepCost(w, s.dir, dir, n)
  }

  ghost predicate Expanded(w: World, t: Tables, closed: set<State>) {
    forall s, dir | s in closed && s in t.cost && 0 <= dir < 4 :: EdgeDone(w, t, s, dir)
  }

  /** `s` was reached from the settled state `p` by one step. */
  ghost predicate Linked(w: World, t: Tables, p: State, s: State)
    requires p in t.cost && s in t.cost
  {
    && 0 <= s.dir < 4
    && s.cell == Neighbor(p.cell, s.dir)
    && Free(w, s.cell)
    && t.cost[s] == t.cost[p] + StepCost(w, p.dir, s.dir, s.cell)
  }

  ghost predicate HasParent(w: World, t: Tables, closed: set<State>, s: State)
    requires s in t.cost
  {
    s in t.came && t.came[s] in closed && t.came[s] in t.cost && Linked(w, t, t.came[s], s)
  }

  ghost predicate ChainOk(w: World, origin: State, t: Tables, closed: set<State>) {
    && origin in t.cost && t.cost[origin] == 0
    && (forall s :: s in t.cost ==> ValidState(w, s) && 0 <= t.cost[s])
    && forall s {:trigger HasParent(w, t, closed, s)} :: s in t.cost && s != origin ==> HasParent(w, t, closed, s)
  }

  ghost predicate SearchInv(w: World, origin: State, end: Cell, t: Tables, closed: set<State>, level: int) {
    && origin.dir == NO_DIRECTION
    && HeapOk(end, t, level)
    && OpenOk(end, t, closed)
    && ClosedOk(end, t, closed, level)
    && ChainOk(w, origin, t, closed)
  }

  // ----- One relaxation -----

  /** The tables after a strict improvement of `s` through `p`. */
  function Improve(end: Cell, t: Tables, p: State, s: State, cost: int): Tables {
    Tables(t.cost[s := cost], t.came[s := p], t.heap + multiset{OpenEntry(end, cost, s)})
  }

  /** A step from `p` to `s` at total cost `cost`. */
  ghost predicate IsStep(w: World, t: Tables, p: State, s: State, cost: int)
    requires p in t.cost
  {
    0 <= s.dir < 4 && s.cell == Neighbor(p.cell, s.dir) && cost == t.cost[p] + StepCost(w, p.dir, s.dir, s.cell)
  }

  /** Consistency at work: an expanded state can never be improved. */
  lemma ExpandedStatesStay(w: World, end: Cell, t: Tables, closed: set<State>, level: int, p: State, s: State, cost: int)
    requires ClosedOk(end, t, closed, level)
    requires p in t.cost && t.cost[p] + Heuristic(end, p.cell) == level && IsStep(w, t, p, s, cost)
    ensures level <= cost + Heuristic(end, s.cell)
    ensures closed <= t.cost.Keys && (s in closed ==> t.cost[s] <= cost)
  {
    HeuristicIsConsistent(w, end, p.cell, p.dir, s.dir);
  }

  lemma ImproveKeepsHeap(end: Cell, t: Tables, closed: set<State>, level: int, p: State, s: State, cost: int)
    requires HeapOk(end, t, level) && OpenOk(end, t, closed) && ClosedOk(end, t, closed, level)
    requires s !in closed && (s in t.cost ==> cost < t.cost[s]) && level <= cost + Heuristic(end, s.cell)
    ensures var t' := Improve(end, t, p, s, cost);
      HeapOk(end, t', level) && OpenOk(end, t', closed) && ClosedOk(end, t', closed, level)
  {
    var t' := Improve(end, t, p, s, cost);
    var e := OpenEntry(end, cost, s);
    assert e !in t.heap;
    forall q | q in t'.cost && q !in closed
      ensures t'.heap[OpenEntry(end, t'.cost[q], q)] == 1
    {
      if q != s {
        assert OpenEntry(end, t.cost[q], q) != e;
      }
    }
  }

  lemma ImproveKeepsChain(w: World, origin: State, end: Cell, t: Tables, closed: set<State>, p: State, s: State, cost: int)
    requires ChainOk(w, origin, t, closed)
    requires p in closed && p in t.cost && s !in closed && s != origin && ValidState(w, s)
    requires 0 <= s.dir && s.cell == Neighbor(p.cell, s.dir) && Free(w, s.cell)
    requires cost == t.cost[p] + StepCost(w, p.dir, s.dir, s.cell)
    ensures ChainOk(w, origin, Improve(end, t, p, s, cost), closed)
  {
    var t' := Improve(end, t, p, s, cost);
    forall q | q in t'.cost && q != origin
      ensures HasParent(w, t', closed, q)
    {
      if q != s {
        assert HasParent(w, t, closed, q);
      }
    }
  }

  lemma ImproveKeepsInv(w: World, origin: State, end: Cell, t: Tables, closed: set<State>, level: int, p: State, s: State, cost: int)
    requires SearchInv(w, origin, end, t, closed, level)
    requires p in closed && p in t.cost && t.cost[p] + Heuristic(end, p.cell) == level
    requires IsStep(w, t, p, s, cost) && Free(w, s.cell)
    requires s in t.cost ==> cost < t.cost[s]
    ensures SearchInv(w, origin, end, Improve(end, t, p, s, cost), closed, level)
  {
    ExpandedStatesStay(w, end, t, closed, level, p, s, cost);
    ImproveKeepsHeap(end, t, closed, level, p, s, cost);
    ImproveKeepsChain(w, origin, end, t, closed, p, s, cost);
  }

  /** All edges of `settled`, and those of `p` in directions below `dir`, are done. */
  ghost predicate ExpandedUpTo(w: World, t: Tables, settled: set<State>, p: State, dir: int) {
    && Expanded(w, t, settled)
    && (forall d | 0 <= d < dir && d < 4 && p in t.cost :: EdgeDone(w, t, p, d))
  }

  lemma ImproveKeepsEdges(w: World, end: Cell, t: Tables, settled: set<State>, p: State, s: State, cost: int, dir: int)
    requires ExpandedUpTo(w, t, settled, p, dir)
    requires p in t.cost && settled <= t.cost.Keys && s !in settled && s != p
    requires s in t.cost ==> cost < t.cost[s]
    ensures ExpandedUpTo(w, Improve(end, t, p, s, cost), settled, p, dir)
  {
    var t' := Improve(end, t, p, s, cost);
    forall q, d | (q in settled && 0 <= d < 4) || (q == p && 0 <= d < dir && d < 4)
      ensures EdgeDone(w, t', q, d)
    {
      assert EdgeDone(w, t, q, d);
    }
  }

  /** Between two of the four steps out of the settled state `p`. */
  ghost predicate ExpandInv(w: World, origin: State, end: Cell, t: Tables, settled: set<State>, p: State, pCost: int, dir: int) {
    && p in t.cost && t.cost[p] == pCost
    && SearchInv(w, origin, end, t, settled + {p}, pCost + Heuristic(end, p.cell))
    && p !in settled
    && ExpandedUpTo(w, t, settled, p, dir)
  }

  lemma SkipStep(w: World, origin: State, end: Cell, t: Tables, settled: set<State>, p: State, pCost: int, dir: int)
    requires 0 <= dir < 4 && ExpandInv(w, origin, end, t, settled, p, pCost, dir)
    requires EdgeDone(w, t, p, dir)
    ensures ExpandInv(w, origin, end, t, settled, p, pCost, dir + 1)
  {
  }

  lemma TakeStep(w: World, origin: State, end: Cell, t: Tables, settled: set<State>, p: State, pCost: int, dir: int, s: State, cost: int)
    requires 0 <= dir < 4 && ExpandInv(w, origin, end, t, settled, p, pCost, dir)
    requires s == State(Neighbor(p.cell, dir), dir) && cost == pCost + StepCost(w, p.dir, dir, s.cell)
    requires Free(w, s.cell) && (s in t.cost ==> cost < t.cost[s])
    ensures ExpandInv(w, origin, end, Improve(end, t, p, s, cost), settled, p, pCost, dir + 1)
  {
    hide HeapOk, OpenOk, ClosedOk, ChainOk, Heuristic, Free, StepCost, Expanded;
    var t' := Improve(end, t, p, s, cost);
    var level := pCost + Heuristic(end, p.cell);
    ExpandedStatesStay(w, end, t, settled + {p}, level, p, s, cost);
    assert SearchInv(w, origin, end, t', settled + {p}, level) by {
      ImproveKeepsInv(w, origin, end, t, settled + {p}, level, p, s, cost);
    }
    assert s !in settled + {p};
    assert ExpandedUpTo(w, t', settled, p, dir) by {
      ImproveKeepsEdges(w, end, t, settled, p, s, cost, dir);
    }
    assert EdgeDone(w, t', p, dir);
  }

  // ----- What the invariant says when the search stops -----

  /** Any walk from a costed state reaches at least the level: the cheapest
      way on leads out of the settled states through the heap. */
  lemma {:induction false} WalksCostAtLeast(w: World, origin: State, end: Cell, t: Tables, closed: set<State>, level: int,
                         s: State, cells: seq<Cell>, soFar: int)
    requires SearchInv(w, origin, end, t, closed, level) && Expanded(w, t, closed)
    requires s in t.cost && t.cost[s] <= soFar
    requires IsRoute(w, s.cell, end, cells)
    ensures t.heap != multiset{}
    ensures level <= soFar + WalkCost(w, s.dir, cells)
    decreases |cells|
  {
    if s !in closed {
      assert OpenEntry(end, t.cost[s], s) in t.heap;
      HeuristicIsAdmissible(w, s.dir, cells);
    } else {
      assert |cells| > 1;
      var dir := DirectionOf(cells[0], cells[1]);
      assert EdgeDone(w, t, s, dir);
      WalksCostAtLeast(w, origin, end, t, closed, level, State(cells[1], dir), cells[1..],
                       soFar + StepCost(w, s.dir, dir, cells[1]));
    }
  }

  /** A heap entry popped first at the goal is never superseded. */
  lemma GoalEntryIsCurrent(w: World, origin: State, end: Cell, t: Tables, closed: set<State>, level: int, e: Entry)
    requires SearchInv(w, origin, end, t, closed, level)
    requires e in t.heap && (forall f :: f in t.heap ==> EntryLeq(e, f))
    requires e.state.cell == end
    ensures e.cost == t.cost[e.state]
  {
    assert OpenEntry(end, t.cost[e.state], e.state) in t.heap;
  }

  lemma RaiseLevel(w: World, origin: State, end: Cell, t: Tables, closed: set<State>, level: int, e: Entry)
    requires SearchInv(w, origin, end, t, closed, level)
    requires e in t.heap && (forall f :: f in t.heap ==> EntryLeq(e, f))
    ensures SearchInv(w, origin, end, t, closed, e.priority)
  {
  }

  /** The popped entry was the only current one for its state. */
  lemma OthersAreStale(end: Cell, t: Tables, closed: set<State>, level: int, e: Entry)
    requires HeapOk(end, t, level) && OpenOk(end, t, closed) && e in t.heap
    requires e.state !in closed && e.cost == t.cost[e.state]
    ensures e == OpenEntry(end, t.cost[e.state], e.state)
    ensures forall f :: f in t.heap - multiset{e} && f.state == e.state ==> t.cost[f.state] < f.cost
  {
    hide Heuristic;
    assert t.heap[OpenEntry(end, t.cost[e.state], e.state)] == 1;
  }

  lemma SettleKeepsHeap(end: Cell, t: Tables, closed: set<State>, level: int, e: Entry)
    requires HeapOk(end, t, level) && OpenOk(end, t, closed) && ClosedOk(end, t, closed, level)
    requires e in t.heap && e.priority == level && t.cost[e.state] == e.cost && e.state.cell != end
    ensures e.state !in closed
    ensures var t' := t.(heap := t.heap - multiset{e});
      HeapOk(end, t', level) && OpenOk(end, t', closed + {e.state}) && ClosedOk(end, t', closed + {e.state}, level)
  {
    hide Heuristic;
    OthersAreStale(end, t, closed, level, e);
    var t' := t.(heap := t.heap - multiset{e});
    assert OpenOk(end, t', closed + {e.state}) by {
      forall s | s in t'.cost && s !in closed + {e.state} ensures t'.heap[OpenEntry(end, t'.cost[s], s)] == 1 {
        assert OpenEntry(end, t'.cost[s], s) != e;
      }
    }
  }

  lemma SettleKeepsChain(w: World, origin: State, t: Tables, closed: set<State>, e: Entry)
    requires ChainOk(w, origin, t, closed)
    ensures ChainOk(w, origin, t.(heap := t.heap - multiset{e}), closed + {e.state})
    ensures ChainOk(w, origin, t.(heap := t.heap - multiset{e}), closed)
  {
    hide Free, StepCost, Neighbor;
    var t' := t.(heap := t.heap - multiset{e});
    forall s | s in t.cost && s != origin
      ensures HasParent(w, t', closed + {e.state}, s) && HasParent(w, t', closed, s)
    {
      assert HasParent(w, t, closed, s);
    }
  }

  /** Popping a current entry settles its state, which was not settled before. */
  lemma SettleState(w: World, origin: State, end: Cell, t: Tables, closed: set<State>, level: int, e: Entry)
    requires SearchInv(w, origin, end, t, closed, level)
    requires e in t.heap && e.priority == level && t.cost[e.state] == e.cost && e.state.cell != end
    ensures e.state !in closed
    ensures SearchInv(w, origin, end, t.(heap := t.heap - multiset{e}), closed + {e.state}, level)
  {
    SettleKeepsHeap(end, t, closed, level, e);
    SettleKeepsChain(w, origin, t, closed, e);
  }

  lemma DropKeepsHeap(end: Cell, t: Tables, closed: set<State>, level: int, e: Entry)
    requires HeapOk(end, t, level) && OpenOk(end, t, closed) && ClosedOk(end, t, closed, level)
    requires e in t.heap && t.cost[e.state] < e.cost
    ensures var t' := t.(heap := t.heap - multiset{e});
      HeapOk(end, t', level) && OpenOk(end, t', closed) && ClosedOk(end, t', closed, level)
  {
    hide Heuristic;
    var t' := t.(heap := t.heap - multiset{e});
    forall s | s in t.cost && s !in closed ensures t'.heap[OpenEntry(end, t.cost[s], s)] == 1 {
      assert OpenEntry(end, t.cost[s], s) != e;
    }
  }

  /** Dropping a superseded entry keeps the invariant. */
  lemma DropStaleEntry(w: World, origin: State, end: Cell, t: Tables, closed: set<State>, level: int, e: Entry)
    requires SearchInv(w, origin, end, t, closed, level) && Expanded(w, t, closed)
    requires e in t.heap && t.cost[e.state] < e.cost
    ensures SearchInv(w, origin, end, t.(heap := t.heap - multiset{e}), closed, level)
    ensures Expanded(w, t.(heap := t.heap - multiset{e}), closed)
  {
    hide OpenEntry, Heuristic, Free, StepCost, Neighbor, ChainOk, OpenOk;
    DropKeepsHeap(end, t, closed, level, e);
    SettleKeepsChain(w, origin, t, closed, e);
    forall s, dir | s in closed && 0 <= dir < 4 ensures EdgeDone(w, t.(heap := t.heap - multiset{e}), s, dir) {
      assert EdgeDone(w, t, s, dir);
    }
  }

  // ----- Reading the route back -----

  function Reversed<T>(s: seq<T>): (r: seq<T>)
    ensures |r| == |s|
  {
    if s == [] then [] else [s[|s| - 1]] + Reversed(s[..|s| - 1])
  }

  function CellsOf(states: seq<State>): (cells: seq<Cell>)
    ensures |cells| == |states|
    ensures forall i :: 0 <= i < |states| ==> cells[i] == states[i].cell
  {
    seq(|states|, i requires 0 <= i < |states| => states[i].cell)
  }

  lemma LinkExtendsWalk(w: World, t: Tables, p: State, s: State, states: seq<State>)
    requires p in t.cost && s in t.cost && Linked(w, t, p, s)
    requires |states| > 0 && states[0] == s && IsWalk(w, CellsOf(states))
    ensures IsWalk(w, CellsOf([p] + states))
    ensures WalkCost(w, p.dir, CellsOf([p] + states)) == t.cost[s] - t.cost[p] + WalkCost(w, s.dir, CellsOf(states))
  {
    DirectionIsUnique(p.cell, s.dir);
    assert CellsOf([p] + states) == [p.cell] + CellsOf(states);
    assert ([p.cell] + CellsOf(states))[1..] == CellsOf(states);
  }

  /** Follows predecessors from the final state to the origin; stored cost
      drops at every link, so the walk back ends, and it ends at the origin. */
  method Reconstruct(w: World, origin: State, end: Cell, t: Tables, ghost closed: set<State>, ghost level: int, final: State)
    returns (cells: seq<Cell>)
    requires SearchInv(w, origin, end, t, closed, level)
    requires final in t.cost && final.cell == end
    ensures IsRoute(w, origin.cell, end, cells)
    ensures WalkCost(w, NO_DIRECTION, cells) == t.cost[final]
  {
    var states := [final];
    ghost var walk := [final];
    while states[|states| - 1] != origin
      invariant |states| > 0 && walk == Reversed(states)
      invariant walk[0] == states[|states| - 1] && walk[0] in t.cost
      invariant walk[|walk| - 1] == final
      invariant IsWalk(w, CellsOf(walk))
      invariant WalkCost(w, walk[0].dir, CellsOf(walk)) == t.cost[final] - t.cost[walk[0]]
      decreases t.cost[states[|states| - 1]]
    {
      var s := states[|states| - 1];
      assert HasParent(w, t, closed, s);
      var p := t.came[s];
      LinkExtendsWalk(w, t, p, s, walk);
      walk := [p] + walk;
      assert (states + [p])[..|states|] == states;
      states := states + [p];
    }
    cells := CellsOf(Reversed(states));
  }

  // ----- The search -----

  /** All states there are; the search settles each at most once. */
  ghost function AllStates(w: World): set<State> {
    set x, y, dir | 0 <= x <= w.maxX && 0 <= y <= w.maxY && NO_DIRECTION <= dir < 4 :: State(Cell(x, y), dir)
  }

  /** Offers the four steps out of the state just settled. */
  method Expand(w: World, ghost origin: State, end: Cell, before: Tables, ghost settled: set<State>, p: State, pCost: int)
    returns (t: Tables)
    requires p in before.cost && pCost == before.cost[p]
    requires SearchInv(w, origin, end, before, settled + {p}, pCost + Heuristic(end, p.cell))
    requires Expanded(w, before, settled) && p !in settled
    ensures SearchInv(w, origin, end, t, settled + {p}, pCost + Heuristic(end, p.cell))
    ensures Expanded(w, t, settled + {p})
  {
    t := before;
    for dir := 0 to 4
      invariant ExpandInv(w, origin, end, t, settled, p, pCost, dir)
    {
      var n := Neighbor(p.cell, dir);
      var cost := pCost + StepCost(w, p.dir, dir, n);
      var s := State(n, dir);
      if Free(w, n) && (s !in t.cost || cost < t.cost[s]) {
        TakeStep(w, origin, end, t, settled, p, pCost, dir, s, cost);
        t := Improve(end, t, p, s, cost);
      } else {
        SkipStep(w, origin, end, t, settled, p, pCost, dir);
      }
    }
  }

  /** The loop invariant of the search. */
  ghost predicate Searching(w: World, start: Cell, end: Cell, t: Tables, closed: set<State>, level: int) {
    SearchInv(w, State(start, NO_DIRECTION), end, t, closed, level) && Expanded(w, t, closed)
  }

  lemma SearchStarts(w: World, start: Cell, end: Cell)
    requires InGrid(w, start)
    ensures var origin := State(start, NO_DIRECTION);
      Searching(w, start, end, Tables(map[origin := 0], map[], multiset{OpenEntry(end, 0, origin)}), {}, Heuristic(end, start))
  {
  }

  /** The first goal entry popped costs no more than any route. */
  lemma FirstGoalIsCheapest(w: World, start: Cell, end: Cell, t: Tables, closed: set<State>, level: int, e: Entry)
    requires Searching(w, start, end, t, closed, level)
    requires e in t.heap && (forall f :: f in t.heap ==> EntryLeq(e, f))
    requires e.state.cell == end
    ensures e.state in t.cost && e.cost == t.cost[e.state]
    ensures forall other :: IsRoute(w, start, end, other) ==> e.cost <= WalkCost(w, NO_DIRECTION, other)
  {
    var origin := State(start, NO_DIRECTION);
    RaiseLevel(w, origin, end, t, closed, level, e);
    GoalEntryIsCurrent(w, origin, end, t, closed, level, e);
    forall other | IsRoute(w, start, end, other) ensures e.cost <= WalkCost(w, NO_DIRECTION, other) {
      WalksCostAtLeast(w, origin, end, t, closed, e.priority, origin, other, 0);
    }
  }

  lemma EmptyHeapMeansNoRoute(w: World, start: Cell, end: Cell, t: Tables, closed: set<State>, level: int)
    requires Searching(w, start, end, t, closed, level) && t.heap == multiset{}
    ensures forall route :: !IsRoute(w, start, end, route)
  {
    forall route ensures !IsRoute(w, start, end, route) {
      if IsRoute(w, start, end, route) {
        WalksCostAtLeast(w, State(start, NO_DIRECTION), end, t, closed, level, State(start, NO_DIRECTION), route, 0);
      }
    }
  }

  lemma PoppedEntry(w: World, start: Cell, end: Cell, t: Tables, closed: set<State>, level: int, e: Entry)
    requires Searching(w, start, end, t, closed, level)
    requires e in t.heap && (forall f :: f in t.heap ==> EntryLeq(e, f))
    ensures e.state in t.cost && t.cost[e.state] <= e.cost && ValidState(w, e.state)
    ensures e.priority == e.cost + Heuristic(end, e.state.cell)
    ensures Searching(w, start, end, t, closed, e.priority)
  {
    RaiseLevel(w, State(start, NO_DIRECTION), end, t, closed, level, e);
  }

  /** One expansion: a state not settled before is settled. */
  method Settle(w: World, start: Cell, end: Cell, before: Tables, ghost closed: set<State>, e: Entry)
    returns (t: Tables)
    requires Searching(w, start, end, before, closed, e.priority)
    requires e in before.heap && e.state.cell != end && e.state in before.cost && e.cost == before.cost[e.state]
    requires e.priority == e.cost + Heuristic(end, e.state.cell)
    ensures e.state !in closed
    ensures Searching(w, start, end, t, closed + {e.state}, e.priority)
  {
    ghost var origin := State(start, NO_DIRECTION);
    SettleState(w, origin, end, before, closed, e.priority, e);
    t := before.(heap := before.heap - multiset{e});
    assert Expanded(w, t, closed) by {
      forall s, dir | s in closed && s in t.cost && 0 <= dir < 4 ensures EdgeDone(w, t, s, dir) {
        assert EdgeDone(w, before, s, dir);
      }
    }
    t := Expand(w, origin, end, t, closed, e.state, e.cost);
  }

  /** Finds a cheapest route, or reports that there is none. */
  method FindRoute(w: World, start: Cell, end: Cell) returns (found: bool, cells: seq<Cell>)
    requires InGrid(w, start) && InGrid(w, end)
    ensures found ==> IsOptimalRoute(w, start, end, cells)
    ensures !found ==> forall route :: !IsRoute(w, start, end, route)
  {
    hide EntryLeq, OpenEntry, SearchInv, Expanded, IsRoute, Heuristic;
    var origin := State(start, NO_DIRECTION);
    var t := Tables(map[origin := 0], map[], multiset{OpenEntry(end, 0, origin)});
    ghost var closed: set<State> := {};
    ghost var level := Heuristic(end, start);
    SearchStarts(w, start, end);
    while t.heap != multiset{}
      invariant Searching(w, start, end, t, closed, level)
      decreases AllStates(w) - closed, |t.heap|
    {
      var e, rest := PopMin(t.heap);
      PoppedEntry(w, start, end, t, closed, level, e);
      level := e.priority;
      if e.state.cell == end {
        FirstGoalIsCheapest(w, start, end, t, closed, level, e);
        cells := Reconstruct(w, origin, end, t, closed, level, e.state);
        return true, cells;
      }
      if e.cost > t.cost[e.state] {
        DropStaleEntry(w, origin, end, t, closed, level, e);
        t := t.(heap := rest);
        continue;
      }
      t := Settle(w, start, end, t, closed, e);
      assert e.state in AllStates(w) - closed;
      closed := closed + {e.state};
    }
    EmptyHeapMeansNoRoute(w, start, end, t, closed, level);
    found := false;
    cells := [];
  }
}
