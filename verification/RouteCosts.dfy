/** What routes cost, told from their cells alone: a hundred a step, fifty-five a
    bend, and what each cell entered adds.  On a clear page one bend is enough. */
module RouteCosts {
  import opened RouteGrid
  import opened PathSimplifier

  // ----- The price of a walk -----

  /** The steps from `a` to `b` and from `b` to `c` differ. */
  predicate IsBend(a: Cell, b: Cell, c: Cell) {
    b.x - a.x != c.x - b.x || b.y - a.y != c.y - b.y
  }

  function Bends(cells: seq<Cell>): nat {
    if |cells| < 3 then 0 else (if IsBend(cells[0], cells[1], cells[2]) then 1 else 0) + Bends(cells[1..])
  }

  /** One step more, some way, leaves the page. */
  predicate OnBorder(w: World, c: Cell) {
    c.x - 1 < 0 || c.x + 1 > w.maxX || c.y - 1 < 0 || c.y + 1 > w.maxY
  }

  function Uses(w: World, c: Cell): nat {
    if c in w.usage then w.usage[c] else 0
  }

  /** What entering a cell adds. */
  function Surcharge(w: World, c: Cell): nat {
    (if 220 * Uses(w, c) > 800 then 800 else 220 * Uses(w, c)) + if OnBorder(w, c) then 12 else 0
  }

  function Surcharges(w: World, cells: seq<Cell>): nat {
    if |cells| <= 1 then 0 else Surcharge(w, cells[1]) + Surcharges(w, cells[1..])
  }

  function Price(w: World, cells: seq<Cell>): int {
    100 * (|cells| - 1) + 55 * Bends(cells) + Surcharges(w, cells)
  }

  lemma SameDirectionIff(a: Cell, b: Cell, c: Cell)
    requires Adjacent(a, b) && Adjacent(b, c)
    ensures DirectionOf(a, b) == DirectionOf(b, c) <==> !IsBend(a, b, c)
  {
  }

  lemma StepCostIs(w: World, incoming: int, dir: int, to: Cell)
    requires InGrid(w, to)
    ensures StepCost(w, incoming, dir, to)
         == 100 + (if incoming == -1 || incoming == dir then 0 else 55) + Surcharge(w, to)
  {
  }

  /** The walk is entered heading `incoming`, so that its first step may turn. */
  lemma {:induction false} WalkCostIs(w: World, incoming: int, cells: seq<Cell>)
    requires IsWalk(w, cells)
    ensures |cells| == 1 ==> WalkCost(w, incoming, cells) == 0
    ensures |cells| > 1 ==>
      WalkCost(w, incoming, cells)
        == Price(w, cells) + if incoming == -1 || incoming == DirectionOf(cells[0], cells[1]) then 0 else 55
    decreases |cells|
  {
    if |cells| > 1 {
      var dir, rest := DirectionOf(cells[0], cells[1]), cells[1..];
      assert WalkCost(w, incoming, cells) == StepCost(w, incoming, dir, cells[1]) + WalkCost(w, dir, rest);
      StepCostIs(w, incoming, dir, cells[1]);
      WalkCostIs(w, dir, rest);
      PriceStep(w, cells);
      if |cells| > 2 {
        assert Adjacent(cells[1 - 1], cells[1]) && Adjacent(cells[2 - 1], cells[2]);
        SameDirectionIff(cells[0], cells[1], cells[2]);
      }
      hide StepCost, DirectionOf, Surcharge, IsBend, Price, WalkCost, InGrid, Blocked;
    }
  }

  lemma PriceStep(w: World, cells: seq<Cell>)
    requires |cells| > 1
    ensures Price(w, cells) == 100 + Surcharge(w, cells[1]) + Price(w, cells[1..])
      + if |cells| > 2 && IsBend(cells[0], cells[1], cells[2]) then 55 else 0
    ensures |cells| == 2 ==> Price(w, cells[1..]) == 0
  {
    hide Surcharge, IsBend;
  }

  /** A walk that starts heading nowhere costs its price. */
  lemma RouteCostIs(w: World, cells: seq<Cell>)
    requires IsWalk(w, cells)
    ensures WalkCost(w, NO_DIRECTION, cells) == Price(w, cells)
  {
    WalkCostIs(w, NO_DIRECTION, cells);
    hide WalkCost, DirectionOf;
  }

  /** A route of least price. */
  ghost predicate IsCheapest(w: World, start: Cell, end: Cell, cells: seq<Cell>) {
    && IsRoute(w, start, end, cells)
    && forall other :: IsRoute(w, start, end, other) ==> Price(w, cells) <= Price(w, other)
  }

  lemma OptimalIsCheapest(w: World, start: Cell, end: Cell, cells: seq<Cell>)
    ensures IsOptimalRoute(w, start, end, cells) <==> IsCheapest(w, start, end, cells)
  {
    hide Price, WalkCost;
    if IsRoute(w, start, end, cells) {
      RouteCostIs(w, cells);
      forall other | IsRoute(w, start, end, other)
        ensures WalkCost(w, NO_DIRECTION, other) == Price(w, other)
      {
        RouteCostIs(w, other);
      }
    }
  }

  // ----- Bends are the corners drawn -----

  lemma {:induction false} BendsAppend(cells: seq<Cell>, c: Cell)
    ensures Bends(cells + [c]) == Bends(cells)
      + if |cells| >= 2 && IsBend(cells[|cells| - 2], cells[|cells| - 1], c) then 1 else 0
    decreases |cells|
  {
    hide IsBend;
    if |cells| >= 2 {
      assert (cells + [c])[1..] == cells[1..] + [c];
      BendsAppend(cells[1..], c);
    }
  }

  lemma {:induction false} CornersBeforeAreBends(cells: seq<Cell>, i: nat)
    requires IsLatticePath(cells) && 1 <= i < |cells|
    ensures |CornersBefore(cells, i)| == 1 + Bends(cells[..i + 1])
    decreases i
  {
    if i > 1 {
      assert UnitStep(cells, i - 1) && UnitStep(cells, i);
      SameDirectionIff(cells[i - 2], cells[i - 1], cells[i]);
      CornersBeforeAreBends(cells, i - 1);
      assert cells[..i + 1] == cells[..i] + [cells[i]];
      BendsAppend(cells[..i], cells[i]);
      hide IsLatticePath, DirectionOf, IsBend, Bends;
    }
  }

  lemma CornersAreBends(cells: seq<Cell>)
    requires IsLatticePath(cells) && |cells| >= 2
    ensures |Corners(cells)| == 2 + Bends(cells)
  {
    CornersBeforeAreBends(cells, |cells| - 1);
    assert cells[..|cells|] == cells;
    hide IsLatticePath;
  }

  // ----- A clear page -----

  /** Nothing in the way, and no cell used before. */
  ghost predicate IsClear(w: World) {
    w.obstacles == [] && forall c :: Uses(w, c) == 0
  }

  predicate IsInside(w: World, c: Cell) {
    InGrid(w, c) && !OnBorder(w, c)
  }

  function Toward(from: int, to: int, k: nat): int {
    if from <= to then from + k else from - k
  }

  /** First along the row, then along the column. */
  function Ell(s: Cell, e: Cell): seq<Cell> {
    seq(Manhattan(s, e) + 1, k requires 0 <= k <= Manhattan(s, e) => EllAt(s, e, k))
  }

  function EllAt(s: Cell, e: Cell, k: nat): Cell {
    var dx := Magnitude(s.x - e.x);
    if k <= dx then Cell(Toward(s.x, e.x, k), s.y) else Cell(e.x, Toward(s.y, e.y, k - dx))
  }

  lemma EllStep(w: World, s: Cell, e: Cell, k: nat)
    requires IsInside(w, s) && IsInside(w, e) && k <= Manhattan(s, e)
    ensures IsInside(w, EllAt(s, e, k))
    ensures k > 0 ==> Adjacent(EllAt(s, e, k - 1), EllAt(s, e, k))
    ensures k == 0 ==> EllAt(s, e, k) == s
    ensures k == Manhattan(s, e) ==> EllAt(s, e, k) == e
    ensures 0 < k < Manhattan(s, e) && IsBend(EllAt(s, e, k - 1), EllAt(s, e, k), EllAt(s, e, k + 1)) ==>
      k == Magnitude(s.x - e.x) && s.x != e.x && s.y != e.y
  {
  }

  lemma EllIsRoute(w: World, s: Cell, e: Cell)
    requires IsClear(w) && IsInside(w, s) && IsInside(w, e)
    ensures IsRoute(w, s, e, Ell(s, e))
  {
    hide EllAt, IsBend, Manhattan, OnBorder;
    var cells := Ell(s, e);
    EllStep(w, s, e, 0);
    EllStep(w, s, e, Manhattan(s, e));
    forall i | 1 <= i < |cells| ensures Adjacent(cells[i - 1], cells[i]) && Free(w, cells[i]) {
      EllStep(w, s, e, i);
    }
  }

  /** A bend at no place but `k` is at most one, and none if not there either. */
  lemma {:induction false} BendsOnlyAt(cells: seq<Cell>, k: int)
    requires forall i :: 0 < i < |cells| - 1 && i != k ==> !IsBend(cells[i - 1], cells[i], cells[i + 1])
    ensures Bends(cells) <= if 0 < k < |cells| - 1 then 1 else 0
    decreases |cells|
  {
    hide IsBend;
    if |cells| >= 3 {
      var rest := cells[1..];
      forall i | 0 < i < |rest| - 1 && i != k - 1 ensures !IsBend(rest[i - 1], rest[i], rest[i + 1]) {
        var j := i + 1;
        assert !IsBend(cells[j - 1], cells[j], cells[j + 1]);
      }
      BendsOnlyAt(rest, k - 1);
      assert 1 != k ==> !IsBend(cells[1 - 1], cells[1], cells[1 + 1]);
    }
  }

  lemma {:induction false} NoSurcharges(w: World, cells: seq<Cell>)
    requires IsClear(w) && forall i :: 0 <= i < |cells| ==> IsInside(w, cells[i])
    ensures Surcharges(w, cells) == 0
    decreases |cells|
  {
    hide OnBorder, InGrid;
    if |cells| > 1 {
      NoSurcharges(w, cells[1..]);
      assert Uses(w, cells[1]) == 0 && IsInside(w, cells[1]);
    }
  }

  /** How many bends are needed. */
  function LeastBends(s: Cell, e: Cell): nat {
    if s.x != e.x && s.y != e.y then 1 else 0
  }

  lemma EllPrice(w: World, s: Cell, e: Cell)
    requires IsClear(w) && IsInside(w, s) && IsInside(w, e)
    ensures Price(w, Ell(s, e)) <= 100 * Manhattan(s, e) + 55 * LeastBends(s, e)
  {
    hide EllAt, IsBend, IsInside, Manhattan, Bends, Surcharges, IsClear, Magnitude;
    var cells := Ell(s, e);
    var k := if s.x != e.x && s.y != e.y then Magnitude(s.x - e.x) else 0;
    forall i | 0 <= i < |cells| ensures IsInside(w, cells[i]) {
      EllStep(w, s, e, i);
    }
    NoSurcharges(w, cells);
    forall i | 0 < i < |cells| - 1 && i != k ensures !IsBend(cells[i - 1], cells[i], cells[i + 1]) {
      EllStep(w, s, e, i);
    }
    BendsOnlyAt(cells, k);
  }

  lemma {:induction false} StraightWalkStays(cells: seq<Cell>)
    requires |cells| >= 2 && Bends(cells) == 0
    ensures cells[1].x == cells[0].x ==> cells[|cells| - 1].x == cells[0].x
    ensures cells[1].y == cells[0].y ==> cells[|cells| - 1].y == cells[0].y
    decreases |cells|
  {
    if |cells| > 2 {
      StraightWalkStays(cells[1..]);
    }
  }

  /** Off the row and the column, a walk has to bend. */
  lemma BendsAreNeeded(w: World, s: Cell, e: Cell, cells: seq<Cell>)
    requires IsRoute(w, s, e, cells)
    ensures Bends(cells) >= LeastBends(s, e) && |cells| - 1 >= Manhattan(s, e)
  {
    WalkIsLong(w, cells);
    if |cells| >= 2 && Bends(cells) == 0 {
      StraightWalkStays(cells);
      assert Adjacent(cells[1 - 1], cells[1]);
    }
    hide Bends;
  }

  lemma {:induction false} WalkIsLong(w: World, cells: seq<Cell>)
    requires IsWalk(w, cells)
    ensures |cells| - 1 >= Manhattan(cells[0], cells[|cells| - 1])
    decreases |cells|
  {
    if |cells| > 1 {
      WalkIsLong(w, cells[1..]);
      assert Adjacent(cells[1 - 1], cells[1]);
    }
  }

  /** On a clear page, between cells off its border, a cheapest route takes no more
      steps than it has to and bends once, or not at all along a row or column. */
  lemma ClearRoutesBendOnce(w: World, s: Cell, e: Cell, cells: seq<Cell>)
    requires IsClear(w) && IsInside(w, s) && IsInside(w, e) && IsCheapest(w, s, e, cells)
    ensures |cells| == Manhattan(s, e) + 1
    ensures Bends(cells) == LeastBends(s, e)
    ensures Price(w, cells) == 100 * Manhattan(s, e) + 55 * LeastBends(s, e)
  {
    EllIsRoute(w, s, e);
    EllPrice(w, s, e);
    BendsAreNeeded(w, s, e, cells);
    hide IsRoute, IsClear, IsInside, Ell, Bends, Surcharges, Manhattan, LeastBends;
  }
}
