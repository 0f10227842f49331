/** Dropping repeated and straight-through points from a connector's path. */
module PathSimplifier {
  import opened RouteGrid

  const TOLERANCE := 0.01

  predicate Near(a: real, b: real) {
    -TOLERANCE < a - b < TOLERANCE
  }

  /** `b` lies on the vertical or horizontal through both its neighbours. */
  predicate Aligned(a: Point, b: Point, c: Point) {
    (Near(a.x, b.x) && Near(b.x, c.x)) || (Near(a.y, b.y) && Near(b.y, c.y))
  }

  /** Without immediate repetitions. */
  function Dedup(points: seq<Point>): (r: seq<Point>)
    ensures points != [] ==> r != [] && r[0] == points[0] && r[|r| - 1] == points[|points| - 1]
    ensures |r| <= |points|
  {
    if |points| <= 1 then points
    else
      var n := |points| - 1;
      var d := Dedup(points[..n]);
      if points[n] == d[|d| - 1] then d else d + [points[n]]
  }

  /** The points kept among the first `i` of a deduplicated path. */
  function Kept(d: seq<Point>, i: nat): (r: seq<Point>)
    requires 1 <= i <= |d| && (i < |d| || i == 1)
    ensures r != [] && r[0] == d[0]
  {
    if i == 1 then [d[0]]
    else
      var k := Kept(d, i - 1);
      if Aligned(k[|k| - 1], d[i - 1], d[i]) then k else k + [d[i - 1]]
  }

  function Simplified(points: seq<Point>): (r: seq<Point>)
    ensures points != [] ==> r != [] && r[0] == points[0] && r[|r| - 1] == points[|points| - 1]
  {
    if |points| <= 2 then points
    else
      var d := Dedup(points);
      Kept(d, if |d| == 1 then 1 else |d| - 1) + [d[|d| - 1]]
  }

  method SimplifyPath(points: seq<Point>) returns (r: seq<Point>)
    ensures r == Simplified(points)
  {
    if |points| <= 2 {
      return points;
    }
    var deduped: seq<Point> := [];
    for i := 0 to |points|
      invariant deduped == Dedup(points[..i])
    {
      assert points[..i + 1][..i] == points[..i];
      if deduped == [] || points[i] != deduped[|deduped| - 1] {
        deduped := deduped + [points[i]];
      }
    }
    assert points[..|points|] == points;
    r := [deduped[0]];
    var idx := 1;
    while idx < |deduped| - 1
      invariant 1 <= idx && (idx <= |deduped| - 1 || idx == |deduped| == 1)
      invariant r == Kept(deduped, idx)
    {
      if !Aligned(r[|r| - 1], deduped[idx], deduped[idx + 1]) {
        r := r + [deduped[idx]];
      }
      idx := idx + 1;
    }
    r := r + [deduped[|deduped| - 1]];
  }

  // ----- On a grid route the simplification loses nothing -----

  function PointsOf(w: World, cells: seq<Cell>): (r: seq<Point>)
    ensures |r| == |cells|
    ensures forall i :: 0 <= i < |cells| ==> r[i] == ToPoint(w, cells[i])
  {
    seq(|cells|, i requires 0 <= i < |cells| => ToPoint(w, cells[i]))
  }

  ghost predicate UnitStep(cells: seq<Cell>, i: int) {
    1 <= i < |cells| && Adjacent(cells[i - 1], cells[i])
  }

  /** Unit steps with no step straight back. */
  ghost predicate IsLatticePath(cells: seq<Cell>) {
    && |cells| > 0
    && (forall i :: 1 <= i < |cells| ==> UnitStep(cells, i))
    && (forall i :: !ReversesAt(cells, i))
  }

  /** The path changes direction at its `i`-th cell. */
  ghost predicate Turns(cells: seq<Cell>, i: nat)
    requires IsLatticePath(cells) && 1 <= i < |cells| - 1
  {
    assert UnitStep(cells, i) && UnitStep(cells, i + 1);
    DirectionOf(cells[i - 1], cells[i]) != DirectionOf(cells[i], cells[i + 1])
  }

  /** The first cell and the turning cells among the first `i`. */
  ghost function CornersBefore(cells: seq<Cell>, i: nat): (r: seq<Cell>)
    requires IsLatticePath(cells) && 1 <= i <= |cells| && (i < |cells| || i == 1)
    ensures r != []
  {
    if i == 1 then [cells[0]]
    else if Turns(cells, i - 1) then CornersBefore(cells, i - 1) + [cells[i - 1]]
    else CornersBefore(cells, i - 1)
  }

  /** First cell, turning cells, last cell. */
  ghost function Corners(cells: seq<Cell>): (r: seq<Cell>)
    requires IsLatticePath(cells)
    ensures r != []
  {
    if |cells| <= 2 then cells else CornersBefore(cells, |cells| - 1) + [cells[|cells| - 1]]
  }

  /** The cell `k` steps from `a` heading `dir`. */
  function Along(a: Cell, dir: int, k: int): Cell
    requires 0 <= dir < 4
  {
    if dir == 0 then Cell(a.x + k, a.y)
    else if dir == 1 then Cell(a.x - k, a.y)
    else if dir == 2 then Cell(a.x, a.y + k)
    else Cell(a.x, a.y - k)
  }

  function Heading(a: Cell, b: Cell): (dir: int)
    ensures 0 <= dir < 4
  {
    if b.x > a.x then 0 else if b.x < a.x then 1 else if b.y > a.y then 2 else 3
  }

  /** The cells of the straight leg from `a` to `b`, without `a`. */
  function Leg(a: Cell, b: Cell): seq<Cell> {
    seq(Manhattan(a, b), k requires 0 <= k => Along(a, Heading(a, b), k + 1))
  }

  /** Redraws a path cell by cell from its corners. */
  function Unroll(corners: seq<Cell>): seq<Cell> {
    if |corners| <= 1 then corners
    else
      var n := |corners| - 1;
      Unroll(corners[..n]) + Leg(corners[n - 1], corners[n])
  }

  /** From the last corner at index `j` up to index `i` the path is straight. */
  ghost predicate Straight(cells: seq<Cell>, j: nat, i: nat)
    requires IsLatticePath(cells) && j < i < |cells|
  {
    assert UnitStep(cells, j + 1) && UnitStep(cells, i);
    && (forall k :: j <= k <= i ==> cells[k] == Along(cells[j], DirectionOf(cells[j], cells[j + 1]), k - j))
    && DirectionOf(cells[i - 1], cells[i]) == DirectionOf(cells[j], cells[j + 1])
  }

  lemma LegIsSlice(cells: seq<Cell>, j: nat, i: nat)
    requires IsLatticePath(cells) && j < i < |cells| && Straight(cells, j, i)
    ensures Leg(cells[j], cells[i]) == cells[j + 1..i + 1]
  {
    assert UnitStep(cells, j + 1);
    var dir := DirectionOf(cells[j], cells[j + 1]);
    assert cells[i] == Along(cells[j], dir, i - j);
    assert Heading(cells[j], cells[i]) == dir && Manhattan(cells[j], cells[i]) == i - j;
    forall k | 0 <= k < i - j ensures Leg(cells[j], cells[i])[k] == cells[j + 1..i + 1][k] {
      assert cells[j + 1 + k] == Along(cells[j], dir, k + 1);
    }
  }

  /** Seen from the last corner, the next cell is a turn exactly when the
      simplifier's alignment test fails. */
  lemma AlignedIffNoTurn(w: World, cells: seq<Cell>, j: nat, i: nat)
    requires IsLatticePath(cells) && w.step > 0
    requires 1 <= i < |cells| - 1 && j < i && Straight(cells, j, i)
    ensures Aligned(ToPoint(w, cells[j]), ToPoint(w, cells[i]), ToPoint(w, cells[i + 1])) <==> !Turns(cells, i)
  {
    assert UnitStep(cells, j + 1) && UnitStep(cells, i) && UnitStep(cells, i + 1);
    var dir, next := DirectionOf(cells[j], cells[j + 1]), DirectionOf(cells[i], cells[i + 1]);
    assert cells[i] == Along(cells[j], dir, i - j);
    assert cells[i + 1] == Along(cells[i], next, 1);
    assert cells[i] == Along(cells[i - 1], dir, 1);
    assert !ReversesAt(cells, i - 1);
    NearOnGrid(w, cells[j].x, cells[i].x);
    NearOnGrid(w, cells[i].x, cells[i + 1].x);
    NearOnGrid(w, cells[j].y, cells[i].y);
    NearOnGrid(w, cells[i].y, cells[i + 1].y);
  }

  lemma NearOnGrid(w: World, a: int, b: int)
    requires w.step > 0
    ensures Near((a * w.step) as real, (b * w.step) as real) <==> a == b
  {
    if a > b {
      assert (a - b) * w.step >= 1;
    } else if a < b {
      assert (b - a) * w.step >= 1;
    }
  }

  /** Index of the last corner among the first `i` cells. */
  ghost function LastCorner(cells: seq<Cell>, i: nat): (j: nat)
    requires IsLatticePath(cells) && 1 <= i < |cells|
    ensures j < i
  {
    if i == 1 then 0 else if Turns(cells, i - 1) then i - 1 else LastCorner(cells, i - 1)
  }

  lemma OneStepIsStraight(cells: seq<Cell>, j: nat)
    requires IsLatticePath(cells) && j + 1 < |cells|
    ensures Straight(cells, j, j + 1)
  {
    hide ReversesAt;
    assert UnitStep(cells, j + 1);
    assert cells[j + 1] == Along(cells[j], DirectionOf(cells[j], cells[j + 1]), 1);
  }

  lemma StraightOn(cells: seq<Cell>, j: nat, i: nat)
    requires IsLatticePath(cells) && j < i < |cells| - 1 && Straight(cells, j, i) && !Turns(cells, i)
    ensures Straight(cells, j, i + 1)
  {
    hide ReversesAt;
    assert UnitStep(cells, i + 1);
    assert cells[i + 1] == Along(cells[i], DirectionOf(cells[i], cells[i + 1]), 1);
    assert cells[i] == Along(cells[j], DirectionOf(cells[j], cells[j + 1]), i - j);
  }

  lemma {:induction false} StraightFromLastCorner(cells: seq<Cell>, i: nat)
    requires IsLatticePath(cells) && 1 <= i < |cells|
    ensures Straight(cells, LastCorner(cells, i), i)
    ensures var c := CornersBefore(cells, i); c[|c| - 1] == cells[LastCorner(cells, i)]
  {
    hide IsLatticePath, Straight, Turns;
    OneStepIsStraight(cells, i - 1);
    if i > 1 {
      StraightFromLastCorner(cells, i - 1);
      if !Turns(cells, i - 1) {
        StraightOn(cells, LastCorner(cells, i - 1), i - 1);
      }
    }
  }

  lemma {:induction false} KeptAreCorners(w: World, cells: seq<Cell>, i: nat)
    requires IsLatticePath(cells) && w.step > 0
    requires 1 <= i < |cells|
    ensures Kept(PointsOf(w, cells), i) == PointsOf(w, CornersBefore(cells, i))
  {
    if i > 1 {
      KeptAreCorners(w, cells, i - 1);
      StraightFromLastCorner(cells, i - 1);
      AlignedIffNoTurn(w, cells, LastCorner(cells, i - 1), i - 1);
    }
  }

  lemma {:induction false} CornersUnroll(cells: seq<Cell>, i: nat)
    requires IsLatticePath(cells) && 1 <= i < |cells|
    ensures Unroll(CornersBefore(cells, i)) == cells[..LastCorner(cells, i) + 1]
  {
    hide IsLatticePath, Leg, Turns;
    if i > 1 {
      CornersUnroll(cells, i - 1);
      if Turns(cells, i - 1) {
        UnrollOnce(cells, i - 1);
      }
    }
  }

  lemma UnrollAppend(c: seq<Cell>, x: Cell)
    requires c != []
    ensures Unroll(c + [x]) == Unroll(c) + Leg(c[|c| - 1], x)
  {
    assert (c + [x])[..|c|] == c;
  }

  lemma LastLeg(cells: seq<Cell>, i: nat)
    requires IsLatticePath(cells) && 1 <= i < |cells|
    ensures var c, j := CornersBefore(cells, i), LastCorner(cells, i);
      Leg(c[|c| - 1], cells[i]) == cells[j + 1..i + 1]
  {
    StraightFromLastCorner(cells, i);
    LegIsSlice(cells, LastCorner(cells, i), i);
  }

  /** One more leg redrawn. */
  lemma UnrollOnce(cells: seq<Cell>, i: nat)
    requires IsLatticePath(cells) && 1 <= i < |cells|
    requires Unroll(CornersBefore(cells, i)) == cells[..LastCorner(cells, i) + 1]
    ensures Unroll(CornersBefore(cells, i) + [cells[i]]) == cells[..i + 1]
  {
    hide IsLatticePath, Leg, Unroll, CornersBefore, LastCorner;
    var j := LastCorner(cells, i);
    UnrollAppend(CornersBefore(cells, i), cells[i]);
    LastLeg(cells, i);
    assert cells[..j + 1] + cells[j + 1..i + 1] == cells[..i + 1];
  }

  /** Consecutive grid cells are drawn as different points. */
  lemma StepsDiffer(w: World, cells: seq<Cell>, i: nat)
    requires IsLatticePath(cells) && w.step > 0 && 1 <= i < |cells|
    ensures PointsOf(w, cells)[i - 1] != PointsOf(w, cells)[i]
  {
    hide ReversesAt, Near;
    assert UnitStep(cells, i);
    NearOnGrid(w, cells[i - 1].x, cells[i].x);
    NearOnGrid(w, cells[i - 1].y, cells[i].y);
  }

  lemma {:induction false} NothingToDedup(w: World, cells: seq<Cell>, i: nat)
    requires IsLatticePath(cells) && w.step > 0 && i <= |cells|
    ensures Dedup(PointsOf(w, cells)[..i]) == PointsOf(w, cells)[..i]
  {
    hide IsLatticePath, ToPoint;
    if i > 1 {
      NothingToDedup(w, cells, i - 1);
      StepsDiffer(w, cells, i - 1);
      var p := PointsOf(w, cells);
      assert p[..i][..i - 1] == p[..i - 1];
    }
  }

  lemma KeptAreCornersOnly(w: World, cells: seq<Cell>)
    requires IsLatticePath(cells) && w.step > 0 && |cells| > 2
    ensures Simplified(PointsOf(w, cells)) == PointsOf(w, Corners(cells))
  {
    hide IsLatticePath, Dedup, Kept, CornersBefore, ToPoint;
    NothingToDedup(w, cells, |cells|);
    assert PointsOf(w, cells)[..|cells|] == PointsOf(w, cells);
    KeptAreCorners(w, cells, |cells| - 1);
  }

  lemma CornersRedrawAll(cells: seq<Cell>)
    requires IsLatticePath(cells)
    ensures Unroll(Corners(cells)) == cells
  {
    hide IsLatticePath, Leg, LastCorner;
    if |cells| > 1 {
      var n := |cells| - 1;
      CornersUnroll(cells, n);
      UnrollOnce(cells, n);
      assert Corners(cells) == CornersBefore(cells, n) + [cells[n]];
      hide *;
      assert cells[..n + 1] == cells;
    }
  }

  /** Simplifying a grid path keeps exactly its corners, and from the corners
      the whole path can be redrawn cell by cell. */
  lemma SimplifiedIsLossless(w: World, cells: seq<Cell>)
    requires IsLatticePath(cells) && w.step > 0
    ensures Simplified(PointsOf(w, cells)) == PointsOf(w, Corners(cells))
    ensures Unroll(Corners(cells)) == cells
  {
    if |cells| > 2 {
      KeptAreCornersOnly(w, cells);
    }
    CornersRedrawAll(cells);
  }
}
