/** Routing one connector: snap the endpoints to the grid, repair blocked ones,
    search, and simplify; or draw an elbow where nothing can be routed. */
module GridRouter {
  import opened RouteGrid
  import opened NearestFree
  import opened RouteSearch
  import opened PathSimplifier
  import opened RouteCosts
  import Reals

  /** Rounds to the nearest integer, halves to even. */
  function Round(r: real): int {
    var f := r.Floor;
    var rest := r - f as real;
    if rest < 0.5 then f else if rest > 0.5 then f + 1 else if f % 2 == 0 then f else f + 1
  }

  function CeilDiv(a: int, b: nat): int
    requires b > 0
  {
    (a + b - 1) / b
  }

  /** How many steps cover a side of the page, at least one. */
  function Extent(side: int, step: nat): nat
    requires step > 0
  {
    if CeilDiv(side, step) < 1 then 1 else CeilDiv(side, step)
  }

  function Clamp(low: int, high: int, v: int): int {
    if v < low then low else if high < v then high else v
  }

  function GridWorld(width: int, height: int, step: nat, obstacles: seq<Obstacle>, usage: map<Cell, nat>): World
    requires step > 0
  {
    World(Extent(width, step), Extent(height, step), step, obstacles, usage)
  }

  function ToGrid(w: World, p: Point): (c: Cell)
    requires w.step > 0
    ensures InGrid(w, c)
  {
    Cell(Clamp(0, w.maxX, Round(p.x / w.step as real)), Clamp(0, w.maxY, Round(p.y / w.step as real)))
  }

  /** The path drawn where there is no route: halfway along the longer side. */
  function Elbow(start: Point, end: Point): seq<Point> {
    if Reals.Abs(start.x - end.x) > Reals.Abs(start.y - end.y) then
      var midX := start.x + (end.x - start.x) / 2.0;
      Simplified([start, Point(midX, start.y), Point(midX, end.y), end])
    else
      var midY := start.y + (end.y - start.y) / 2.0;
      Simplified([start, Point(start.x, midY), Point(end.x, midY), end])
  }

  // ----- The grid -----

  /** The least number of steps, but at least one, that covers the side. */
  lemma ExtentIsLeast(side: int, step: nat, n: nat)
    requires step > 0
    ensures Extent(side, step) >= 1 && Extent(side, step) * step >= side
    ensures 1 <= n < Extent(side, step) ==> n * step < side
  {
    hide CeilDiv;
    CeilDivCovers(side, step);
    var up := CeilDiv(side, step);
    if up >= 1 && 1 <= n < up {
      FewerAreLess(n, up - 1, step);
    } else if up < 1 {
      FewerAreLess(up, 1, step);
    }
  }

  lemma CeilDivCovers(side: int, step: nat)
    requires step > 0
    ensures side <= CeilDiv(side, step) * step < side + step
  {
  }

  lemma FewerAreLess(a: int, b: int, step: nat)
    requires a <= b
    ensures a * step <= b * step
  {
  }

  lemma RoundIsNearest(r: real, i: int)
    ensures Reals.Abs(Round(r) as real - r) <= Reals.Abs(i as real - r)
    ensures Reals.Abs(Round(r) as real - r) == Reals.Abs(i as real - r) && i != Round(r) ==> Round(r) % 2 == 0
  {
  }

  lemma ClampedIsNearest(r: real, high: nat, i: int)
    requires 0 <= i <= high
    ensures Reals.Abs(Clamp(0, high, Round(r)) as real - r) <= Reals.Abs(i as real - r)
  {
    RoundIsNearest(r, i);
    hide Round;
    if Round(r) < 0 {
      RoundIsNearest(r, -1);
    } else if Round(r) > high {
      RoundIsNearest(r, high + 1);
    }
  }

  lemma Spread(k: real, a: real, b: real)
    requires k > 0.0
    ensures Reals.Abs(a * k - b * k) == k * Reals.Abs(a - b)
  {
    var d := a - b;
    assert a * k - b * k == k * d;
    if d < 0.0 {
      Stretch(k, 0.0, -d);
      assert k * -d == -(k * d);
    } else {
      Stretch(k, 0.0, d);
    }
  }

  lemma Stretch(k: real, a: real, b: real)
    requires k > 0.0 && a <= b
    ensures k * a <= k * b
  {
  }

  lemma OnLine(step: nat, p: real, c: int)
    requires step > 0
    ensures Reals.Abs((c * step) as real - p) == step as real * Reals.Abs(c as real - p / step as real)
  {
    var k := step as real;
    var r := p / k;
    assert p == r * k && (c * step) as real == c as real * k;
    hide *;
    Spread(k, c as real, r);
  }

  lemma NearestLine(step: nat, p: real, high: nat, i: int)
    requires step > 0 && 0 <= i <= high
    ensures Reals.Abs((Clamp(0, high, Round(p / step as real)) * step) as real - p) <= Reals.Abs((i * step) as real - p)
  {
    hide *;
    var r := p / step as real;
    var c := Clamp(0, high, Round(r));
    OnLine(step, p, c);
    OnLine(step, p, i);
    ClampedIsNearest(r, high, i);
    Stretch(step as real, Reals.Abs(c as real - r), Reals.Abs(i as real - r));
  }

  /** A port is moved to a grid point as near to it as any, sideways and upright. */
  lemma ToGridIsNearest(w: World, p: Point, c: Cell)
    requires w.step > 0 && InGrid(w, c)
    ensures Reals.Abs((ToGrid(w, p).x * w.step) as real - p.x) <= Reals.Abs((c.x * w.step) as real - p.x)
    ensures Reals.Abs((ToGrid(w, p).y * w.step) as real - p.y) <= Reals.Abs((c.y * w.step) as real - p.y)
  {
    NearestLine(w.step, p.x, w.maxX, c.x);
    NearestLine(w.step, p.y, w.maxY, c.y);
    hide Clamp, Round, Reals.Abs;
  }

  /** The cells that may be stepped onto: on the page and on no obstacle. */
  lemma FreeIff(w: World, c: Cell)
    ensures Free(w, c) <==>
      && 0 <= c.x <= w.maxX && 0 <= c.y <= w.maxY
      && forall o :: o in w.obstacles ==>
           !(o.x1 <= (c.x * w.step) as real <= o.x2 && o.y1 <= (c.y * w.step) as real <= o.y2)
  {
    if forall i :: 0 <= i < |w.obstacles| ==> !Covers(w.obstacles[i], ToPoint(w, c)) {
      forall o | o in w.obstacles ensures !Covers(o, ToPoint(w, c)) {
        var i :| 0 <= i < |w.obstacles| && w.obstacles[i] == o;
      }
    } else {
      var i :| 0 <= i < |w.obstacles| && Covers(w.obstacles[i], ToPoint(w, c));
      assert w.obstacles[i] in w.obstacles;
    }
  }

  // ----- What is drawn -----

  /** The points are the cells, in order, on the page. */
  predicate AreDrawn(w: World, cells: seq<Cell>, points: seq<Point>) {
    && |points| == |cells|
    && forall i :: 0 <= i < |cells| ==>
         points[i].x == (cells[i].x * w.step) as real && points[i].y == (cells[i].y * w.step) as real
  }

  /** `points` are the corners of a cheapest route from `s` to `e`, enough to
      redraw it cell by cell. */
  ghost predicate DrawsCheapestRoute(w: World, s: Cell, e: Cell, points: seq<Point>, cells: seq<Cell>) {
    && IsCheapest(w, s, e, cells)
    && IsLatticePath(cells)
    && AreDrawn(w, Corners(cells), points)
    && Unroll(Corners(cells)) == cells
  }

  /** The whole promise for repaired endpoints `s` and `e`: a cheapest route
      where there is any route, and the elbow exactly where there is none. */
  ghost predicate RoutedBetween(w: World, s: Cell, e: Cell, start: Point, end: Point, points: seq<Point>) {
    if exists route :: IsRoute(w, s, e, route)
    then exists cells :: DrawsCheapestRoute(w, s, e, points, cells)
    else points == Elbow(start, end)
  }

  ghost predicate Routed(w: World, start: Point, end: Point, points: seq<Point>)
    requires w.step > 0
  {
    exists s, e ::
      && IsNearestFree(w, ToGrid(w, start), s)
      && IsNearestFree(w, ToGrid(w, end), e)
      && RoutedBetween(w, s, e, start, end, points)
  }

  lemma OptimalRouteIsLatticePath(w: World, s: Cell, e: Cell, cells: seq<Cell>)
    requires IsOptimalRoute(w, s, e, cells)
    ensures IsLatticePath(cells)
  {
    OptimalRoutesDoNotReverse(w, s, e, cells);
  }

  /** Every leg of the path is horizontal or vertical. */
  ghost predicate IsRectilinear(points: seq<Point>) {
    forall i :: 0 <= i < |points| - 1 ==> points[i].x == points[i + 1].x || points[i].y == points[i + 1].y
  }

  lemma FourPoints(a: Point, b: Point, c: Point, d: Point)
    requires a != b && b != c && c != d
    ensures Simplified([a, b, c, d]) ==
      var k := if Aligned(a, b, c) then [a] else [a, b];
      (if Aligned(k[|k| - 1], c, d) then k else k + [c]) + [d]
  {
    var s := [a, b, c, d];
    assert s[..3] == [a, b, c] && s[..3][..2] == [a, b] && s[..3][..2][..1] == [a];
    assert Dedup(s[..3][..2]) == [a, b];
    assert Dedup(s[..3]) == [a, b, c];
    assert Dedup(s) == s;
    assert Kept(s, 1) == [a];
    assert Kept(s, 2) == if Aligned(a, b, c) then [a] else [a, b];
  }

  lemma MiddleRepeats(a: Point, b: Point, d: Point)
    requires Aligned(a, b, d) && a != b && b != d
    ensures Simplified([a, b, b, d]) == [a, d]
  {
    var s := [a, b, b, d];
    assert s[..3] == [a, b, b] && s[..3][..2] == [a, b] && s[..3][..2][..1] == [a];
    assert Dedup(s[..3][..2]) == [a, b];
    assert Dedup(s[..3]) == [a, b];
    assert Dedup(s) == [a, b, d];
    assert Kept([a, b, d], 1) == [a];
    assert Kept([a, b, d], 2) == [a];
  }

  lemma AllTheSame(a: Point)
    ensures Simplified([a, a, a, a]) == [a, a]
  {
    var s := [a, a, a, a];
    assert s[..3] == [a, a, a] && s[..3][..2] == [a, a] && s[..3][..2][..1] == [a];
    assert Dedup(s[..3][..2]) == [a];
    assert Dedup(s[..3]) == [a];
    assert Dedup(s) == [a];
  }

  /** How far apart two ports are along the shorter and the longer side. */
  function ShortSide(start: Point, end: Point): real {
    Reals.Min(Reals.Abs(start.x - end.x), Reals.Abs(start.y - end.y))
  }

  function LongSide(start: Point, end: Point): real {
    Reals.Max(Reals.Abs(start.x - end.x), Reals.Abs(start.y - end.y))
  }

  predicate BendIsKept(start: Point, end: Point) {
    ShortSide(start, end) >= TOLERANCE && LongSide(start, end) >= 2.0 * TOLERANCE
  }

  /** The two points at the bend. */
  function Bend(start: Point, end: Point): (Point, Point) {
    if Reals.Abs(start.x - end.x) > Reals.Abs(start.y - end.y) then
      var midX := start.x + (end.x - start.x) / 2.0;
      (Point(midX, start.y), Point(midX, end.y))
    else
      var midY := start.y + (end.y - start.y) / 2.0;
      (Point(start.x, midY), Point(end.x, midY))
  }

  lemma BendAligned(start: Point, end: Point)
    ensures var (b, c) := Bend(start, end);
      && (b == c <==> ShortSide(start, end) == 0.0) && (start == b || c == end ==> start == end)
      && (Aligned(start, b, c) <==> !BendIsKept(start, end))
      && (!BendIsKept(start, end) ==> Aligned(start, c, end))
      && (BendIsKept(start, end) ==> !Aligned(b, c, end))
      && (b == c ==> Aligned(start, b, end))
  {
  }

  lemma ElbowPoints(start: Point, end: Point)
    ensures var (b, c) := Bend(start, end);
      Elbow(start, end) == if BendIsKept(start, end) then [start, b, c, end] else [start, end]
  {
    var (b, c) := Bend(start, end);
    assert Elbow(start, end) == Simplified([start, b, c, end]);
    BendAligned(start, end);
    if start == end {
      AllTheSame(start);
    } else if b == c {
      MiddleRepeats(start, b, end);
    } else {
      hide Bend, Aligned, BendIsKept, ShortSide;
      FourPoints(start, b, c, end);
    }
    hide Simplified, Aligned;
  }

  /** The elbow joins the two ports it was asked to join.  Its legs are straight
      unless the ports nearly share a coordinate: then the simplifier's tolerance
      swallows the bend. */
  lemma ElbowJoinsPorts(start: Point, end: Point)
    ensures var points := Elbow(start, end);
      points != [] && points[0] == start && points[|points| - 1] == end
    ensures IsRectilinear(Elbow(start, end)) <==> ShortSide(start, end) == 0.0 || BendIsKept(start, end)
  {
    ElbowPoints(start, end);
    hide Elbow;
    if !BendIsKept(start, end) {
      var points := [start, end];
      assert IsRectilinear(points) <==> points[0].x == points[1].x || points[0].y == points[1].y;
    }
  }

  /** The bend is halfway: the two middle points lie across the longer side, as far
      from one port as from the other, each level with the port it is next to. */
  lemma ElbowBendsHalfway(start: Point, end: Point)
    requires BendIsKept(start, end)
    ensures var p := Elbow(start, end);
      && |p| == 4
      && (Reals.Abs(start.x - end.x) > Reals.Abs(start.y - end.y) ==>
            p[1].x == p[2].x && p[1].x - start.x == end.x - p[2].x && p[1].y == start.y && p[2].y == end.y)
      && (Reals.Abs(start.x - end.x) <= Reals.Abs(start.y - end.y) ==>
            p[1].y == p[2].y && p[1].y - start.y == end.y - p[2].y && p[1].x == start.x && p[2].x == end.x)
  {
    ElbowPoints(start, end);
    hide Elbow;
  }

  /** It is kept from a hundredth across and two hundredths along. */
  lemma BendIsKeptIff(start: Point, end: Point)
    ensures BendIsKept(start, end) <==>
      var dx, dy := Reals.Abs(start.x - end.x), Reals.Abs(start.y - end.y);
      dx >= 0.01 && dy >= 0.01 && (dx >= 0.02 || dy >= 0.02)
  {
  }

  /** For instance ports a hundred steps apart one way and next to nothing the other. */
  lemma ElbowMaySlant()
    ensures Elbow(Point(0.0, 0.0), Point(100.0, 0.005)) == [Point(0.0, 0.0), Point(100.0, 0.005)]
    ensures !IsRectilinear(Elbow(Point(0.0, 0.0), Point(100.0, 0.005)))
  {
    ElbowPoints(Point(0.0, 0.0), Point(100.0, 0.005));
    ElbowJoinsPorts(Point(0.0, 0.0), Point(100.0, 0.005));
    hide Elbow, IsRectilinear;
  }

  lemma CheapestIsDrawn(w: World, s: Cell, e: Cell, cells: seq<Cell>)
    requires w.step > 0 && IsOptimalRoute(w, s, e, cells)
    ensures DrawsCheapestRoute(w, s, e, Simplified(PointsOf(w, cells)), cells)
  {
    hide IsCheapest, IsOptimalRoute, IsLatticePath, Corners, Unroll, Simplified, AreDrawn, PointsOf;
    OptimalRouteIsLatticePath(w, s, e, cells);
    SimplifiedIsLossless(w, cells);
    OptimalIsCheapest(w, s, e, cells);
    PointsAreDrawn(w, Corners(cells));
  }

  lemma PointsAreDrawn(w: World, cells: seq<Cell>)
    ensures AreDrawn(w, cells, PointsOf(w, cells))
  {
  }

  method RouteGridPath(width: int, height: int, start: Point, end: Point,
                       obstacles: seq<Obstacle>, usage: map<Cell, nat>, step: nat := 16)
    returns (points: seq<Point>)
    requires step > 0
    ensures Routed(GridWorld(width, height, step, obstacles, usage), start, end, points)
  {
    var w := GridWorld(width, height, step, obstacles, usage);
    var s := FindNearestFree(w, ToGrid(w, start));
    var e := FindNearestFree(w, ToGrid(w, end));
    var found, cells := FindRoute(w, s, e);
    if !found {
      points := Elbow(start, end);
    } else {
      points := SimplifyPath(PointsOf(w, cells));
      CheapestIsDrawn(w, s, e, cells);
    }
    hide IsRoute, DrawsCheapestRoute, IsNearestFree, Elbow, ToGrid, GridWorld, IsOptimalRoute;
    assert RoutedBetween(w, s, e, start, end, points);
  }

  /** What is drawn runs from the first port to the second: from grid point to grid
      point where there is a route, and from port to port where there is none. */
  lemma DrawnFromPortToPort(w: World, start: Point, end: Point, points: seq<Point>) returns (s: Cell, e: Cell)
    requires w.step > 0 && Routed(w, start, end, points)
    ensures IsNearestFree(w, ToGrid(w, start), s) && IsNearestFree(w, ToGrid(w, end), e) && points != []
    ensures var a, b := points[0], points[|points| - 1];
      if exists route :: IsRoute(w, s, e, route)
      then a == Point((s.x * w.step) as real, (s.y * w.step) as real) && b == Point((e.x * w.step) as real, (e.y * w.step) as real)
      else a == start && b == end
  {
    hide ToGrid, IsNearestFree, IsRoute, DrawsCheapestRoute, Elbow;
    s, e :| IsNearestFree(w, ToGrid(w, start), s) && IsNearestFree(w, ToGrid(w, end), e)
      && RoutedBetween(w, s, e, start, end, points);
    if exists route :: IsRoute(w, s, e, route) {
      var cells :| DrawsCheapestRoute(w, s, e, points, cells);
      DrawnCorners(w, s, e, points, cells);
    } else {
      ElbowJoinsPorts(start, end);
    }
  }

  // ----- On a clear page -----

  lemma FreeIsItsOwnNearest(w: World, node: Cell, r: Cell)
    requires IsNearestFree(w, node, r) && Free(w, node)
    ensures r == node
  {
    assert Manhattan(node, r) <= Manhattan(node, node) == 0;
  }

  lemma NothingBlocks(w: World, c: Cell)
    requires IsClear(w) && InGrid(w, c)
    ensures Free(w, c)
  {
  }

  /** With nothing in the way and no cell used, ports off the border of the page are
      joined with at most one bend, and with none where they share a row or column. */
  lemma ClearPageBendsOnce(w: World, start: Point, end: Point, points: seq<Point>)
    requires w.step > 0 && IsClear(w) && IsInside(w, ToGrid(w, start)) && IsInside(w, ToGrid(w, end))
    requires Routed(w, start, end, points)
    ensures var s, e := ToGrid(w, start), ToGrid(w, end);
      |points| == if s == e then 1 else 2 + LeastBends(s, e)
    ensures var s, e := ToGrid(w, start), ToGrid(w, end);
      && points[0].x == (s.x * w.step) as real && points[0].y == (s.y * w.step) as real
      && points[|points| - 1].x == (e.x * w.step) as real && points[|points| - 1].y == (e.y * w.step) as real
  {
    hide *;
    var a, b := ToGrid(w, start), ToGrid(w, end);
    InsideIsInGrid(w, a);
    InsideIsInGrid(w, b);
    NothingBlocks(w, a);
    NothingBlocks(w, b);
    var cells := RoutedFromFree(w, start, end, points);
    ClearRoutesBendOnce(w, a, b, cells);
    DrawnCorners(w, a, b, points, cells);
    ApartIff(a, b);
  }

  lemma ApartIff(a: Cell, b: Cell)
    ensures Manhattan(a, b) == 0 <==> a == b
  {
  }

  lemma RoutedFromFree(w: World, start: Point, end: Point, points: seq<Point>) returns (cells: seq<Cell>)
    requires w.step > 0 && IsClear(w) && Routed(w, start, end, points)
    requires IsInside(w, ToGrid(w, start)) && IsInside(w, ToGrid(w, end))
    requires Free(w, ToGrid(w, start)) && Free(w, ToGrid(w, end))
    ensures DrawsCheapestRoute(w, ToGrid(w, start), ToGrid(w, end), points, cells)
    ensures IsCheapest(w, ToGrid(w, start), ToGrid(w, end), cells)
  {
    hide ToGrid, Elbow, IsInside, IsClear, IsNearestFree, Free, IsRoute, IsCheapest, Corners, Unroll, IsLatticePath;
    var a, b := ToGrid(w, start), ToGrid(w, end);
    var s, e :|
      IsNearestFree(w, a, s) && IsNearestFree(w, b, e) && RoutedBetween(w, s, e, start, end, points);
    FreeIsItsOwnNearest(w, a, s);
    FreeIsItsOwnNearest(w, b, e);
    EllIsRoute(w, a, b);
    cells :| DrawsCheapestRoute(w, a, b, points, cells);
  }

  /** The points drawn are the ends and one for each bend. */
  lemma DrawnCorners(w: World, s: Cell, e: Cell, points: seq<Point>, cells: seq<Cell>)
    requires DrawsCheapestRoute(w, s, e, points, cells)
    ensures |points| == if |cells| == 1 then 1 else 2 + Bends(cells)
    ensures |cells| == 1 ==> s == e
    ensures points[0].x == (s.x * w.step) as real && points[0].y == (s.y * w.step) as real
    ensures points[|points| - 1].x == (e.x * w.step) as real && points[|points| - 1].y == (e.y * w.step) as real
  {
    hide IsLatticePath, Unroll, Corners, Bends, Price;
    CornersEnds(cells);
    if |cells| > 1 {
      CornersAreBends(cells);
    } else {
      OneCorner(cells);
    }
  }

  lemma OneCorner(cells: seq<Cell>)
    requires IsLatticePath(cells) && |cells| == 1
    ensures |Corners(cells)| == 1
  {
  }

  lemma InsideIsInGrid(w: World, c: Cell)
    requires IsInside(w, c)
    ensures InGrid(w, c)
  {
  }

  lemma CornersEnds(cells: seq<Cell>)
    requires IsLatticePath(cells)
    ensures var c := Corners(cells); c[0] == cells[0] && c[|c| - 1] == cells[|cells| - 1]
  {
    hide IsLatticePath;
    if |cells| > 2 {
      FirstCorner(cells, |cells| - 1);
    }
  }

  lemma FirstCorner(cells: seq<Cell>, i: nat)
    requires IsLatticePath(cells) && 1 <= i < |cells|
    ensures CornersBefore(cells, i)[0] == cells[0]
  {
    hide IsLatticePath, Turns;
    if i > 1 {
      FirstCorner(cells, i - 1);
    }
  }
}
