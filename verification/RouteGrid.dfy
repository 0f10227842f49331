/** The grid on which a connector is routed: cells, obstacles, step costs, and
    what a route is and costs.  Costs are in hundredths, so 0.55 is 55. */
module RouteGrid {

  datatype Cell = Cell(x: int, y: int)

  datatype Point = Point(x: real, y: real)

  /** An obstacle: a closed axis-parallel rectangle. */
  datatype Obstacle = Obstacle(x1: real, y1: real, x2: real, y2: real)

  /** Everything the search only reads.  `maxX` and `maxY` are inclusive. */
  datatype World = World(maxX: nat, maxY: nat, step: nat, obstacles: seq<Obstacle>, usage: map<Cell, nat>)

  const NO_DIRECTION := -1
  const STEP_COST := 100
  const TURN_COST := 55
  const REUSE_COST := 220
  const MAX_REUSE_COST := 800
  const BORDER_COST := 12

  function ToPoint(w: World, c: Cell): Point {
    Point((c.x * w.step) as real, (c.y * w.step) as real)
  }

  predicate Covers(r: Obstacle, p: Point) {
    r.x1 <= p.x <= r.x2 && r.y1 <= p.y <= r.y2
  }

  predicate Blocked(w: World, c: Cell) {
    exists i :: 0 <= i < |w.obstacles| && Covers(w.obstacles[i], ToPoint(w, c))
  }

  predicate InGrid(w: World, c: Cell) {
    0 <= c.x <= w.maxX && 0 <= c.y <= w.maxY
  }

  /** A cell the search may step onto. */
  predicate Free(w: World, c: Cell) {
    InGrid(w, c) && !Blocked(w, c)
  }

  /** The cell one step away, in the order in which directions are tried. */
  function Neighbor(c: Cell, dir: int): Cell
    requires 0 <= dir < 4
  {
    if dir == 0 then Cell(c.x + 1, c.y)
    else if dir == 1 then Cell(c.x - 1, c.y)
    else if dir == 2 then Cell(c.x, c.y + 1)
    else Cell(c.x, c.y - 1)
  }

  function Magnitude(a: int): nat {
    if a < 0 then -a else a
  }

  function Manhattan(a: Cell, b: Cell): nat {
    Magnitude(a.x - b.x) + Magnitude(a.y - b.y)
  }

  predicate Adjacent(a: Cell, b: Cell) {
    Manhattan(a, b) == 1
  }

  /** The direction of a unit step. */
  function DirectionOf(a: Cell, b: Cell): (dir: int)
    requires Adjacent(a, b)
    ensures 0 <= dir < 4 && Neighbor(a, dir) == b
  {
    if b.x == a.x + 1 then 0 else if b.x == a.x - 1 then 1 else if b.y == a.y + 1 then 2 else 3
  }

  lemma DirectionIsUnique(a: Cell, dir: int)
    requires 0 <= dir < 4
    ensures Adjacent(a, Neighbor(a, dir)) && DirectionOf(a, Neighbor(a, dir)) == dir
  {
  }

  function UsageOf(w: World, c: Cell): nat {
    if c in w.usage then w.usage[c] else 0
  }

  /** What it costs to enter `to` heading `dir` after having headed `incoming`. */
  function StepCost(w: World, incoming: int, dir: int, to: Cell): (cost: int)
    ensures STEP_COST <= cost
  {
    var turn := if incoming == NO_DIRECTION || incoming == dir then 0 else TURN_COST;
    var reuse := if REUSE_COST * UsageOf(w, to) < MAX_REUSE_COST then REUSE_COST * UsageOf(w, to) else MAX_REUSE_COST;
    var border := if to.x == 0 || to.x == w.maxX || to.y == 0 || to.y == w.maxY then BORDER_COST else 0;
    STEP_COST + turn + reuse + border
  }

  /** A walk: unit steps, every cell stepped onto is free.  The first cell is
      where the connector already stands, so nothing is asked of it. */
  ghost predicate IsWalk(w: World, cells: seq<Cell>) {
    && |cells| > 0
    && (forall i :: 1 <= i < |cells| ==> Adjacent(cells[i-1], cells[i]))
    && (forall i :: 1 <= i < |cells| ==> Free(w, cells[i]))
  }

  ghost predicate IsRoute(w: World, start: Cell, end: Cell, cells: seq<Cell>) {
    IsWalk(w, cells) && cells[0] == start && cells[|cells| - 1] == end
  }

  /** The total step cost of a walk entered heading `incoming`. */
  ghost function WalkCost(w: World, incoming: int, cells: seq<Cell>): int
    requires IsWalk(w, cells)
    decreases |cells|
  {
    if |cells| == 1 then 0
    else
      var dir := DirectionOf(cells[0], cells[1]);
      StepCost(w, incoming, dir, cells[1]) + WalkCost(w, dir, cells[1..])
  }

  /** The cheapest routes, as a specification: no route is cheaper. */
  ghost predicate IsOptimalRoute(w: World, start: Cell, end: Cell, cells: seq<Cell>) {
    && IsRoute(w, start, end, cells)
    && forall other :: IsRoute(w, start, end, other) ==> WalkCost(w, NO_DIRECTION, cells) <= WalkCost(w, NO_DIRECTION, other)
  }

  /** The search heuristic: straight-line grid distance at the base step cost. */
  function Heuristic(end: Cell, c: Cell): (h: nat)
  {
    STEP_COST * Manhattan(c, end)
  }

  /** The heuristic never drops by more than a step costs. */
  lemma HeuristicIsConsistent(w: World, end: Cell, c: Cell, incoming: int, dir: int)
    requires 0 <= dir < 4
    ensures Heuristic(end, c) <= StepCost(w, incoming, dir, Neighbor(c, dir)) + Heuristic(end, Neighbor(c, dir))
  {
    assert Manhattan(c, end) <= 1 + Manhattan(Neighbor(c, dir), end);
  }

  /** Hence it never overestimates what is left of a walk. */
  lemma {:induction false} HeuristicIsAdmissible(w: World, incoming: int, cells: seq<Cell>)
    requires IsWalk(w, cells)
    ensures Heuristic(cells[|cells| - 1], cells[0]) <= WalkCost(w, incoming, cells)
    decreases |cells|
  {
    if |cells| > 1 {
      var dir := DirectionOf(cells[0], cells[1]);
      HeuristicIsConsistent(w, cells[|cells| - 1], cells[0], incoming, dir);
      HeuristicIsAdmissible(w, dir, cells[1..]);
    }
  }

  /** A walk that steps out and straight back. */
  ghost predicate ReversesAt(cells: seq<Cell>, i: int) {
    0 <= i < |cells| - 2 && cells[i] == cells[i + 2]
  }

  ghost function WithoutDetour(cells: seq<Cell>, i: int): seq<Cell>
    requires ReversesAt(cells, i)
  {
    cells[..i + 1] + cells[i + 3..]
  }

  lemma DetourFreeIsWalk(w: World, cells: seq<Cell>, i: int)
    requires IsWalk(w, cells) && ReversesAt(cells, i)
    ensures IsRoute(w, cells[0], cells[|cells| - 1], WithoutDetour(cells, i))
  {
    var cut := WithoutDetour(cells, i);
    forall j | 1 <= j < |cut|
      ensures Adjacent(cut[j - 1], cut[j]) && Free(w, cut[j])
    {
      if j <= i {
        assert cut[j - 1] == cells[j - 1] && cut[j] == cells[j];
      } else {
        assert cut[j] == cells[j + 2] && cut[j - 1] == cells[j + 1];
      }
    }
  }

  lemma HeadingMattersLittle(w: World, incoming: int, other: int, cells: seq<Cell>)
    requires IsWalk(w, cells)
    ensures WalkCost(w, incoming, cells) <= WalkCost(w, other, cells) + TURN_COST
  {
  }

  /** Cutting an out-and-back detour makes a walk strictly cheaper. */
  lemma {:induction false} DetourCosts(w: World, incoming: int, cells: seq<Cell>, i: int)
    requires IsWalk(w, cells) && ReversesAt(cells, i)
    ensures IsWalk(w, WithoutDetour(cells, i))
    ensures WalkCost(w, incoming, WithoutDetour(cells, i)) < WalkCost(w, incoming, cells)
    decreases i
  {
    DetourFreeIsWalk(w, cells, i);
    var cut := WithoutDetour(cells, i);
    var dir := DirectionOf(cells[0], cells[1]);
    var tail := cells[1..];
    if i == 0 {
      var back := DirectionOf(tail[0], tail[1]);
      assert tail[1..] == cut;
      HeadingMattersLittle(w, incoming, back, cut);
    } else {
      DetourCosts(w, dir, tail, i - 1);
      assert cut[1..] == WithoutDetour(tail, i - 1);
    }
  }

  /** A cheapest route never turns back on itself. */
  lemma OptimalRoutesDoNotReverse(w: World, start: Cell, end: Cell, cells: seq<Cell>)
    requires IsOptimalRoute(w, start, end, cells)
    ensures forall i :: !ReversesAt(cells, i)
  {
    forall i ensures !ReversesAt(cells, i) {
      if ReversesAt(cells, i) {
        DetourFreeIsWalk(w, cells, i);
        DetourCosts(w, NO_DIRECTION, cells, i);
      }
    }
  }
}
