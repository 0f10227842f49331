/** Repairing a blocked endpoint: breadth-first search, through blocked cells
    too, for a free cell closest in grid distance. */
module NearestFree {
  import opened RouteGrid

  /** `r` is a free cell nearest to `node`; where no cell is free it is `node`. */
  ghost predicate IsNearestFree(w: World, node: Cell, r: Cell) {
    if exists c :: Free(w, c)
    then Free(w, r) && forall c :: Free(w, c) ==> Manhattan(node, r) <= Manhattan(node, c)
    else r == node
  }

  ghost function AllCells(w: World): set<Cell> {
    set x, y | 0 <= x <= w.maxX && 0 <= y <= w.maxY :: Cell(x, y)
  }

  /** The in-grid neighbours of `c` have all been seen. */
  ghost predicate Spread(w: World, seen: set<Cell>, c: Cell) {
    forall dir | 0 <= dir < 4 :: InGrid(w, Neighbor(c, dir)) ==> Neighbor(c, dir) in seen
  }

  /** Seen cells are blocked cells of the grid; only those pending have
      neighbours that have not been looked at. */
  ghost predicate SeenOk(w: World, seen: set<Cell>, pending: set<Cell>) {
    && (forall c :: c in seen ==> InGrid(w, c) && Blocked(w, c))
    && pending <= seen
    && (forall c :: c in seen && c !in pending ==> Spread(w, seen, c))
  }

  /** The queue spans at most two distances, `k` and then `k + 1`. */
  ghost predicate QueueOk(node: Cell, queue: seq<Cell>, k: nat) {
    && (forall i :: 0 <= i < |queue| ==> k <= Manhattan(node, queue[i]) <= k + 1)
    && (forall i, j :: 0 <= i < j < |queue| ==> Manhattan(node, queue[i]) <= Manhattan(node, queue[j]))
  }

  /** Everything within distance `k` has been seen. */
  ghost predicate Swept(w: World, node: Cell, seen: set<Cell>, k: int) {
    forall c :: InGrid(w, c) && Manhattan(node, c) <= k ==> c in seen
  }

  /** Every cell but the centre has an in-grid neighbour one step closer. */
  lemma CloserNeighbor(w: World, node: Cell, c: Cell) returns (dir: int)
    requires InGrid(w, node) && InGrid(w, c) && c != node
    ensures 0 <= dir < 4
    ensures var n := if dir == 0 then Cell(c.x - 1, c.y) else if dir == 1 then Cell(c.x + 1, c.y)
                     else if dir == 2 then Cell(c.x, c.y - 1) else Cell(c.x, c.y + 1);
      InGrid(w, n) && Neighbor(n, dir) == c && Manhattan(node, n) == Manhattan(node, c) - 1
  {
    dir := if c.x > node.x then 0 else if c.x < node.x then 1 else if c.y > node.y then 2 else 3;
  }

  /** Once every seen cell at distance `k` has spread, distance `k + 1` is swept. */
  lemma SweepNextRing(w: World, node: Cell, seen: set<Cell>, pending: set<Cell>, k: nat)
    requires InGrid(w, node) && SeenOk(w, seen, pending) && Swept(w, node, seen, k)
    requires forall c :: c in pending ==> k < Manhattan(node, c)
    ensures Swept(w, node, seen, k + 1)
  {
    forall c | InGrid(w, c) && Manhattan(node, c) == k + 1 ensures c in seen {
      var dir := CloserNeighbor(w, node, c);
      var n := if dir == 0 then Cell(c.x - 1, c.y) else if dir == 1 then Cell(c.x + 1, c.y)
               else if dir == 2 then Cell(c.x, c.y - 1) else Cell(c.x, c.y + 1);
      assert Spread(w, seen, n);
    }
  }

  /** With nothing pending, the whole grid has been seen. */
  lemma {:induction false} SweepAll(w: World, node: Cell, seen: set<Cell>, k: nat)
    requires InGrid(w, node) && node in seen && SeenOk(w, seen, {})
    ensures Swept(w, node, seen, k)
  {
    if k == 0 {
      assert forall c :: Manhattan(node, c) <= 0 ==> c == node;
    } else {
      SweepAll(w, node, seen, k - 1);
      SweepNextRing(w, node, seen, {}, k - 1);
    }
  }

  ghost function Elements(queue: seq<Cell>): set<Cell> {
    set c | c in queue
  }

  /** Inside the loop over the four neighbours of `front`. */
  ghost predicate Spreading(w: World, node: Cell, seen: set<Cell>, queue: seq<Cell>, k: nat, front: Cell, dir: int) {
    && node in seen && front in seen && Manhattan(node, front) == k
    && SeenOk(w, seen, Elements(queue) + {front})
    && QueueOk(node, queue, k)
    && Swept(w, node, seen, k)
    && (forall d | 0 <= d < dir && d < 4 :: InGrid(w, Neighbor(front, d)) ==> Neighbor(front, d) in seen)
  }

  lemma SeeNeighbor(w: World, node: Cell, seen: set<Cell>, queue: seq<Cell>, k: nat, front: Cell, dir: int)
    requires 0 <= dir < 4 && Spreading(w, node, seen, queue, k, front, dir)
    requires var n := Neighbor(front, dir); InGrid(w, n) && n !in seen && Blocked(w, n)
    ensures var n := Neighbor(front, dir); Spreading(w, node, seen + {n}, queue + [n], k, front, dir + 1)
  {
    var n := Neighbor(front, dir);
    assert n != front && Manhattan(node, n) == k + 1 by {
      hide SeenOk, QueueOk, Elements;
    }
    assert Elements(queue + [n]) == Elements(queue) + {n} by {
      hide SeenOk, QueueOk, Swept;
    }
    hide Manhattan, Elements, Neighbor, Blocked, InGrid;
    SeenGrows(w, seen, Elements(queue) + {front}, n);
    QueueGrows(node, queue, k, n);
    assert Elements(queue + [n]) + {front} == (Elements(queue) + {front}) + {n};
    hide SeenOk, QueueOk;
  }

  lemma SeenGrows(w: World, seen: set<Cell>, pending: set<Cell>, n: Cell)
    requires SeenOk(w, seen, pending) && InGrid(w, n) && Blocked(w, n)
    ensures SeenOk(w, seen + {n}, pending + {n})
  {
    hide InGrid, Blocked, Neighbor;
    forall c | c in seen + {n} && c !in pending + {n} ensures Spread(w, seen + {n}, c) {
      assert Spread(w, seen, c);
    }
  }

  lemma QueueGrows(node: Cell, queue: seq<Cell>, k: nat, n: Cell)
    requires QueueOk(node, queue, k) && Manhattan(node, n) == k + 1
    ensures QueueOk(node, queue + [n], k)
  {
    hide Manhattan;
  }

  lemma DoneSpreading(w: World, node: Cell, seen: set<Cell>, queue: seq<Cell>, k: nat, front: Cell)
    requires Spreading(w, node, seen, queue, k, front, 4)
    ensures SeenOk(w, seen, Elements(queue))
  {
    assert Spread(w, seen, front);
  }

  /** The first free cell found is one step beyond everything seen. */
  lemma FirstFreeIsNearest(w: World, node: Cell, seen: set<Cell>, queue: seq<Cell>, k: nat, front: Cell, dir: int)
    requires 0 <= dir < 4 && Spreading(w, node, seen, queue, k, front, dir)
    requires Free(w, Neighbor(front, dir)) && Neighbor(front, dir) !in seen
    ensures IsNearestFree(w, node, Neighbor(front, dir))
  {
    forall c | Free(w, c) ensures Manhattan(node, Neighbor(front, dir)) <= Manhattan(node, c) {
      assert c !in seen;
    }
  }

  lemma AllSeenIsAllBlocked(w: World, node: Cell, seen: set<Cell>)
    requires InGrid(w, node) && node in seen && SeenOk(w, seen, {})
    ensures forall c :: !Free(w, c)
  {
    forall c ensures !Free(w, c) {
      SweepAll(w, node, seen, Manhattan(node, c));
    }
  }

  /** Looks at the four neighbours of `front`: a free one ends the search, an
      unseen blocked one is queued. */
  method SpreadFrom(w: World, node: Cell, seenBefore: set<Cell>, rest: seq<Cell>, ghost k: nat, front: Cell)
    returns (hit: bool, r: Cell, seen: set<Cell>, queue: seq<Cell>)
    requires Spreading(w, node, seenBefore, rest, k, front, 0)
    ensures hit ==> IsNearestFree(w, node, r) && InGrid(w, r)
    ensures !hit ==> Spreading(w, node, seen, queue, k, front, 4)
    ensures !hit ==> seenBefore <= seen <= AllCells(w) && (seen == seenBefore ==> queue == rest)
  {
    hide QueueOk, Swept, IsNearestFree, Elements, Manhattan, Neighbor;
    seen, queue := seenBefore, rest;
    for dir := 0 to 4
      invariant Spreading(w, node, seen, queue, k, front, dir)
      invariant seenBefore <= seen <= AllCells(w) && (seen == seenBefore ==> queue == rest)
    {
      var n := Neighbor(front, dir);
      if !InGrid(w, n) || n in seen {
        continue;
      }
      if !Blocked(w, n) {
        FirstFreeIsNearest(w, node, seen, queue, k, front, dir);
        return true, n, seen, queue;
      }
      SeeNeighbor(w, node, seen, queue, k, front, dir);
      seen := seen + {n};
      queue := queue + [n];
    }
    return false, node, seen, queue;
  }

  /** Taking the front off the queue starts its round. */
  lemma StartSpreading(w: World, node: Cell, seen: set<Cell>, queue: seq<Cell>, k: nat) returns (k': nat)
    requires InGrid(w, node) && queue != [] && node in seen && SeenOk(w, seen, Elements(queue))
    requires QueueOk(node, queue, k) && Swept(w, node, seen, k)
    ensures Spreading(w, node, seen, queue[1..], k', queue[0], 0)
  {
    k' := Manhattan(node, queue[0]);
    FrontIsNearest(node, queue, k);
    hide Manhattan, QueueOk, Elements;
    assert queue[0] in seen by {
      hide Swept;
    }
    hide SeenOk;
    if k' > k {
      SweepNextRing(w, node, seen, Elements(queue), k);
    }
    hide Swept;
  }

  lemma FrontIsNearest(node: Cell, queue: seq<Cell>, k: nat)
    requires queue != [] && QueueOk(node, queue, k)
    ensures var k' := Manhattan(node, queue[0]);
      && k <= k' <= k + 1 && QueueOk(node, queue[1..], k')
      && forall c :: c in Elements(queue) ==> k' <= Manhattan(node, c)
    ensures queue[0] in Elements(queue) && Elements(queue) == Elements(queue[1..]) + {queue[0]}
  {
    hide Manhattan;
    assert queue == [queue[0]] + queue[1..];
  }

  lemma SearchBegins(w: World, node: Cell)
    requires InGrid(w, node) && Blocked(w, node)
    ensures SeenOk(w, {node}, Elements([node])) && QueueOk(node, [node], 0) && Swept(w, node, {node}, 0)
  {
    assert Elements([node]) == {node};
  }

  lemma NothingFree(w: World, node: Cell, seen: set<Cell>, queue: seq<Cell>)
    requires InGrid(w, node) && node in seen && SeenOk(w, seen, Elements(queue)) && queue == []
    ensures IsNearestFree(w, node, node)
  {
    assert Elements(queue) == {};
    AllSeenIsAllBlocked(w, node, seen);
  }

  method FindNearestFree(w: World, node: Cell) returns (r: Cell)
    requires InGrid(w, node)
    ensures IsNearestFree(w, node, r) && InGrid(w, r)
  {
    if !Blocked(w, node) {
      return node;
    }
    var seen := {node};
    var queue := [node];
    ghost var k := 0;
    SearchBegins(w, node);
    hide *;
    while queue != []
      invariant node in seen && SeenOk(w, seen, Elements(queue))
      invariant QueueOk(node, queue, k)
      invariant Swept(w, node, seen, k)
      decreases AllCells(w) - seen, |queue|
    {
      hide *;
      var front := queue[0];
      k := StartSpreading(w, node, seen, queue, k);
      var hit, found, seen', queue' := SpreadFrom(w, node, seen, queue[1..], k, front);
      if hit {
        return found;
      }
      DoneSpreading(w, node, seen', queue', k, front);
      seen, queue := seen', queue';
    }
    NothingFree(w, node, seen, queue);
    return node;
  }
}
