/** Pages without lanes: rows of boxes, every other one running backwards. */
module FreeformLayout {
  import opened Sorting
  import opened DiagramPages
  import opened Options
  import opened Reals

  /** The number a label starts with. */
  type Numbers = string -> Option<nat>

  const NODE_WIDTH := 360.0
  const MARGIN_X := 70.0
  const MARGIN_Y := 70.0
  const COL_GAP := 90.0
  const ROW_GAP := 155.0
  const LABEL_SIZE: nat := 15

  // ----- Order -----

  /** Zero counts as no better than a missing number. */
  function Rank(b: Box, numberOf: Numbers): nat {
    match numberOf(b.face.text)
    case None => 9999
    case Some(n) => if n == 0 then 9999 else n
  }

  predicate KeyLeq(a: Box, b: Box, numberOf: Numbers) {
    var p, q := numberOf(a.face.text).None?, numberOf(b.face.text).None?;
    var m, n := Rank(a, numberOf), Rank(b, numberOf);
    || (!p && q)
    || (p == q && (m < n || (m == n && (a.at.y < b.at.y || (a.at.y == b.at.y && a.at.x <= b.at.x)))))
  }

  function ByNumber(numberOf: Numbers): (Box, Box) -> bool {
    (a: Box, b: Box) => KeyLeq(a, b, numberOf)
  }

  lemma ByNumberIsOrder(numberOf: Numbers)
    ensures IsOrder(ByNumber(numberOf))
  {
  }

  function Ordered(nodes: seq<Box>, numberOf: Numbers): seq<Box> {
    SortBy(nodes, ByNumber(numberOf))
  }

  // ----- Cells -----

  function Cols(count: nat): nat {
    if count >= 8 then 4 else 3
  }

  function RowOf(i: nat, cols: nat): nat
    requires cols > 0
  {
    i / cols
  }

  /** Odd rows run from right to left. */
  function ColOf(i: nat, cols: nat): nat
    requires cols > 0
  {
    if RowOf(i, cols) % 2 == 1 then cols - 1 - i % cols else i % cols
  }

  lemma CellsSnake(i: nat, cols: nat)
    requires cols == 3 || cols == 4
    ensures ColOf(i, cols) < cols
    ensures var r, c, s, d := RowOf(i, cols), ColOf(i, cols), RowOf(i + 1, cols), ColOf(i + 1, cols);
      || (s == r && (d == c + 1 || c == d + 1))
      || (s == r + 1 && d == c)
  {
    if cols == 3 {
    } else {
    }
  }

  lemma CellsDiffer(i: nat, j: nat, cols: nat)
    requires i < j && (cols == 3 || cols == 4)
    ensures RowOf(i, cols) <= RowOf(j, cols)
    ensures RowOf(i, cols) == RowOf(j, cols) ==> ColOf(i, cols) != ColOf(j, cols)
  {
    if cols == 3 {
    } else {
    }
  }

  // ----- Rows -----

  function HeightOf(b: Box, heights: Heights): real {
    heights(b.face.text, NODE_WIDTH, LABEL_SIZE)
  }

  /** The height of a row by the first `n` boxes. */
  function RowHeight(ordered: seq<Box>, row: nat, n: nat, heights: Heights): real
    requires n <= |ordered|
  {
    if n == 0 then 0.0
    else
      var h := RowHeight(ordered, row, n - 1, heights);
      if RowOf(n - 1, Cols(|ordered|)) == row then Max(h, HeightOf(ordered[n - 1], heights)) else h
  }

  function FullHeight(ordered: seq<Box>, row: nat, heights: Heights): real {
    RowHeight(ordered, row, |ordered|, heights)
  }

  function RowTop(ordered: seq<Box>, row: nat, heights: Heights): real {
    if row == 0 then MARGIN_Y
    else RowTop(ordered, row - 1, heights) + (FullHeight(ordered, row - 1, heights) + ROW_GAP)
  }

  function ColLeft(col: nat): real {
    MARGIN_X + col as real * (NODE_WIDTH + COL_GAP)
  }

  function CellRect(ordered: seq<Box>, i: nat, heights: Heights): Rect {
    var cols := Cols(|ordered|);
    var row := RowOf(i, cols);
    Rect(ColLeft(ColOf(i, cols)), RowTop(ordered, row, heights), NODE_WIDTH, FullHeight(ordered, row, heights))
  }

  function InCells(ordered: seq<Box>, heights: Heights): (s: seq<Box>)
    ensures |s| == |ordered|
    ensures forall i :: 0 <= i < |ordered| ==>
      s[i] == Box(ordered[i].face.(lane := false), CellRect(ordered, i, heights))
  {
    seq(|ordered|, i requires 0 <= i < |ordered| =>
      Box(ordered[i].face.(lane := false), CellRect(ordered, i, heights)))
  }

  function RowCount(count: nat): nat {
    if count == 0 then 0 else RowOf(count - 1, Cols(count)) + 1
  }

  function PageWidth(cols: nat): int {
    Ceil(MARGIN_X * 2.0 + cols as real * NODE_WIDTH + (cols - 1) as real * COL_GAP)
  }

  function PageHeight(ordered: seq<Box>, heights: Heights): int {
    Ceil(RowTop(ordered, RowCount(|ordered|), heights) + MARGIN_Y)
  }

  function Freeform(page: Page, nodes: seq<Box>, heights: Heights, numberOf: Numbers): Page {
    if nodes == [] then page
    else
      var ordered := Ordered(nodes, numberOf);
      page.(width := PageWidth(Cols(|ordered|)), height := PageHeight(ordered, heights),
        boxes := InCells(ordered, heights))
  }

  // ----- The algorithm -----

  method Greatest(keys: set<nat>) returns (k: nat)
    requires keys != {}
    ensures k in keys && forall i :: i in keys ==> i <= k
  {
    k :| k in keys;
    var rest := keys - {k};
    while rest != {}
      invariant k in keys && rest <= keys
      invariant forall i :: i in keys ==> i in rest || i <= k
      decreases |rest|
    {
      var i :| i in rest;
      if i > k { k := i; }
      rest := rest - {i};
    }
  }

  /** The dictionary after `n` boxes. */
  ghost predicate AreRowHeightsOf(m: map<nat, real>, ordered: seq<Box>, n: nat, heights: Heights)
    requires n <= |ordered|
  {
    && HasRows(m, if n == 0 then 0 else RowOf(n - 1, Cols(|ordered|)) + 1)
    && forall r: nat :: RowHeight(ordered, r, n, heights) == if r in m then m[r] else 0.0
  }

  lemma NextBoxHeightens(m: map<nat, real>, ordered: seq<Box>, n: nat, heights: Heights)
    requires n < |ordered| && AreRowHeightsOf(m, ordered, n, heights)
    ensures var row := RowOf(n, Cols(|ordered|));
      var h := Max(if row in m then m[row] else 0.0, HeightOf(ordered[n], heights));
      AreRowHeightsOf(m[row := h], ordered, n + 1, heights)
  {
    var row := RowOf(n, Cols(|ordered|));
    NextRow(n, Cols(|ordered|));
    hide Max, RowOf, Cols, HeightOf, ColOf, RowHeight;
    var h := Max(if row in m then m[row] else 0.0, HeightOf(ordered[n], heights));
    var next := n + 1;
    forall r: nat ensures RowHeight(ordered, r, next, heights) == if r in m[row := h] then m[row := h][r] else 0.0 {
      RowHeightStep(ordered, r, n, heights);
      assert RowHeight(ordered, r, n, heights) == if r in m then m[r] else 0.0;
    }
  }

  /** The next cell is in the same row or begins the next one. */
  lemma NextRow(n: nat, cols: nat)
    requires cols == 3 || cols == 4
    ensures if n == 0 then RowOf(n, cols) == 0 else RowOf(n - 1, cols) <= RowOf(n, cols) <= RowOf(n - 1, cols) + 1
  {
    if n > 0 {
      CellsSnake(n - 1, cols);
    }
  }

  lemma RowHeightStep(ordered: seq<Box>, row: nat, n: nat, heights: Heights)
    requires n < |ordered|
    ensures var h := RowHeight(ordered, row, n, heights);
      RowHeight(ordered, row, n + 1, heights)
        == if RowOf(n, Cols(|ordered|)) == row then Max(h, HeightOf(ordered[n], heights)) else h
  {
  }

  method RowHeights(ordered: seq<Box>, heights: Heights) returns (rowHeights: map<nat, real>)
    ensures AreRowHeights(rowHeights, ordered, heights)
  {
    rowHeights := map[];
    var cols := Cols(|ordered|);
    for i := 0 to |ordered|
      invariant AreRowHeightsOf(rowHeights, ordered, i, heights)
    {
      NextBoxHeightens(rowHeights, ordered, i, heights);
      hide Max, RowOf, Cols, AreRowHeightsOf;
      var row := RowOf(i, cols);
      var h := heights(ordered[i].face.text, NODE_WIDTH, LABEL_SIZE);
      rowHeights := rowHeights[row := Max(if row in rowHeights then rowHeights[row] else 0.0, h)];
    }
    assert forall r :: r in rowHeights ==> rowHeights[r] == RowHeight(ordered, r, |ordered|, heights);
  }

  lemma NextRowTop(ordered: seq<Box>, row: nat, heights: Heights)
    ensures RowTop(ordered, row + 1, heights)
         == RowTop(ordered, row, heights) + (FullHeight(ordered, row, heights) + ROW_GAP)
  {
  }

  /** The dictionary knows the rows up to the n-th. */
  ghost predicate HasRows(m: map<nat, real>, n: nat) {
    forall r: nat :: r in m <==> r < n
  }

  ghost predicate AreRowHeights(m: map<nat, real>, ordered: seq<Box>, heights: Heights) {
    HasRows(m, RowCount(|ordered|)) && forall r :: r in m ==> m[r] == FullHeight(ordered, r, heights)
  }

  ghost predicate AreRowTops(m: map<nat, real>, n: nat, ordered: seq<Box>, heights: Heights) {
    HasRows(m, n) && forall r :: r in m ==> m[r] == RowTop(ordered, r, heights)
  }

  lemma NextRowKnown(m: map<nat, real>, row: nat, ordered: seq<Box>, heights: Heights)
    requires AreRowTops(m, row, ordered, heights)
    ensures AreRowTops(m[row := RowTop(ordered, row, heights)], row + 1, ordered, heights)
  {
    hide RowTop;
  }

  method RowTops(ordered: seq<Box>, rowHeights: map<nat, real>, heights: Heights)
      returns (rowY: map<nat, real>, cursor: real)
    requires ordered != [] && AreRowHeights(rowHeights, ordered, heights)
    ensures AreRowTops(rowY, RowCount(|ordered|), ordered, heights)
    ensures cursor == RowTop(ordered, RowCount(|ordered|), heights)
  {
    rowY := map[];
    cursor := MARGIN_Y;
    assert RowCount(|ordered|) - 1 in rowHeights.Keys;
    var last := Greatest(rowHeights.Keys);
    assert last + 1 == RowCount(|ordered|);
    assert AreRowTops(rowY, 0, ordered, heights);
    for row := 0 to last + 1
      invariant cursor == RowTop(ordered, row, heights)
      invariant AreRowTops(rowY, row, ordered, heights)
    {
      NextRowTop(ordered, row, heights);
      NextRowKnown(rowY, row, ordered, heights);
      assert row in rowHeights;
      hide AreRowTops, RowTop, FullHeight, HasRows, RowCount;
      rowY := rowY[row := cursor];
      cursor := cursor + (rowHeights[row] + ROW_GAP);
    }
    hide *;
  }

  method PlaceNodes(ordered: seq<Box>, rowHeights: map<nat, real>, rowY: map<nat, real>, heights: Heights)
      returns (newNodes: seq<Box>)
    requires AreRowHeights(rowHeights, ordered, heights)
    requires AreRowTops(rowY, RowCount(|ordered|), ordered, heights)
    ensures newNodes == InCells(ordered, heights)
  {
    newNodes := [];
    var cols := Cols(|ordered|);
    for i := 0 to |ordered|
      invariant |newNodes| == i
      invariant forall k :: 0 <= k < i ==> newNodes[k] == InCells(ordered, heights)[k]
    {
      RowsAscend(i, |ordered| - 1, cols);
      hide ColLeft, ColOf, RowTop, FullHeight, RowOf;
      var row := RowOf(i, cols);
      assert row in rowHeights && row in rowY;
      hide HasRows;
      var at := Rect(ColLeft(ColOf(i, cols)), rowY[row], NODE_WIDTH, rowHeights[row]);
      newNodes := newNodes + [Box(ordered[i].face.(lane := false), at)];
    }
  }

  method RelayoutFreeformPage(page: Page, nodes: seq<Box>, heights: Heights, numberOf: Numbers) returns (r: Page)
    ensures r == Freeform(page, nodes, heights, numberOf)
  {
    if nodes == [] {
      return page;
    }
    SortKeepsElements(nodes, ByNumber(numberOf));
    hide RowOf, RowTop, FullHeight, SortBy, CellRect, KeyLeq;
    var ordered := Ordered(nodes, numberOf);
    assert |ordered| == |nodes|;
    var rowHeights := RowHeights(ordered, heights);
    var rowY, cursor := RowTops(ordered, rowHeights, heights);
    var newNodes := PlaceNodes(ordered, rowHeights, rowY, heights);
    r := page.(width := PageWidth(Cols(|ordered|)), height := Ceil(cursor + MARGIN_Y), boxes := newNodes);
  }

  lemma RowsAscend(i: nat, j: nat, cols: nat)
    requires i <= j && (cols == 3 || cols == 4)
    ensures RowOf(i, cols) <= RowOf(j, cols)
  {
    if i < j { CellsDiffer(i, j, cols); }
  }

  // ----- What holds of the page -----

  lemma {:induction false} RowIsHighEnough(ordered: seq<Box>, row: nat, n: nat, heights: Heights)
    requires n <= |ordered|
    ensures RowHeight(ordered, row, n, heights) >= 0.0
    ensures forall i :: 0 <= i < n && RowOf(i, Cols(|ordered|)) == row ==>
      HeightOf(ordered[i], heights) <= RowHeight(ordered, row, n, heights)
  {
    hide HeightOf, RowOf, Cols;
    if n > 0 {
      RowIsHighEnough(ordered, row, n - 1, heights);
    }
  }

  lemma {:induction false} RowsAreBelow(ordered: seq<Box>, r: nat, s: nat, heights: Heights)
    requires r < s
    ensures RowTop(ordered, r, heights) + FullHeight(ordered, r, heights) + ROW_GAP <= RowTop(ordered, s, heights)
    ensures RowTop(ordered, r, heights) >= MARGIN_Y
    decreases s
  {
    RowIsHighEnough(ordered, r, |ordered|, heights);
    RowIsHighEnough(ordered, s - 1, |ordered|, heights);
    hide RowHeight;
    if r < s - 1 {
      RowsAreBelow(ordered, r, s - 1, heights);
    } else if r > 0 {
      RowsAreBelow(ordered, r - 1, r, heights);
      RowIsHighEnough(ordered, r - 1, |ordered|, heights);
    }
  }

  lemma ColsAreApart(c: nat, d: nat)
    requires c < d
    ensures ColLeft(c) + NODE_WIDTH + COL_GAP <= ColLeft(d)
  {
  }

  lemma CellsAreApart(ordered: seq<Box>, i: nat, j: nat, heights: Heights)
    requires i < j < |ordered|
    ensures Apart(CellRect(ordered, i, heights), CellRect(ordered, j, heights))
  {
    var cols := Cols(|ordered|);
    CellsDiffer(i, j, cols);
    var r, s, c, d := RowOf(i, cols), RowOf(j, cols), ColOf(i, cols), ColOf(j, cols);
    if r < s {
      RowsAreBelow(ordered, r, s, heights);
    } else if c < d {
      ColsAreApart(c, d);
    } else {
      ColsAreApart(d, c);
    }
    hide RowOf, ColOf, Cols, ColLeft, RowTop, FullHeight;
  }

  /** No two boxes overlap and every label has room. */
  lemma BoxesAreApart(ordered: seq<Box>, heights: Heights)
    ensures AllApart(InCells(ordered, heights)) && LabelsFit(InCells(ordered, heights), heights, LABEL_SIZE)
  {
    var s := InCells(ordered, heights);
    hide Apart, CellRect;
    forall i, j | 0 <= i < j < |s| ensures Apart(s[i].at, s[j].at) {
      CellsAreApart(ordered, i, j, heights);
    }
    forall i | 0 <= i < |s| ensures s[i].at.h >= heights(s[i].face.text, s[i].at.w, LABEL_SIZE) {
      CellIsHighEnough(ordered, i, heights);
    }
  }

  lemma CellIsHighEnough(ordered: seq<Box>, i: nat, heights: Heights)
    requires i < |ordered|
    ensures CellRect(ordered, i, heights).h >= HeightOf(ordered[i], heights)
    ensures CellRect(ordered, i, heights).w == NODE_WIDTH
  {
    RowIsHighEnough(ordered, RowOf(i, Cols(|ordered|)), |ordered|, heights);
    hide RowHeight, RowOf, Cols, HeightOf;
  }

  /** `b` is beside `a` in its row, or right below it in the next. */
  predicate NextTo(a: Rect, b: Rect) {
    || (a.y == b.y && (b.x == a.x + a.w + COL_GAP || a.x == b.x + b.w + COL_GAP))
    || (a.x == b.x && b.y == a.y + a.h + ROW_GAP)
  }

  /** Consecutive boxes are in adjacent cells. */
  lemma ConsecutiveAreAdjacent(ordered: seq<Box>, i: nat, heights: Heights)
    requires i + 1 < |ordered|
    ensures NextTo(InCells(ordered, heights)[i].at, InCells(ordered, heights)[i + 1].at)
  {
    CellsSnake(i, Cols(|ordered|));
    hide RowOf, ColOf, Cols, FullHeight;
  }

  /** Numbered labels come first and ascend, zero counting as 9999; among equals,
      higher boxes come first, then those farther left. */
  lemma NumbersAscend(nodes: seq<Box>, numberOf: Numbers, heights: Heights, i: nat, j: nat)
    requires i < j < |nodes|
    ensures var ordered := Ordered(nodes, numberOf);
      |ordered| == |nodes| && KeyLeq(ordered[i], ordered[j], numberOf)
      && InCells(ordered, heights)[i].face == ordered[i].face.(lane := false)
  {
    ByNumberIsOrder(numberOf);
    SortSorts(nodes, ByNumber(numberOf));
    SortKeepsElements(nodes, ByNumber(numberOf));
    hide SortBy, KeyLeq, CellRect, IsOrder;
    var ordered := Ordered(nodes, numberOf);
    assert ByNumber(numberOf)(ordered[i], ordered[j]);
  }

  /** Every box of the page appears once. */
  lemma EveryBoxOnce(page: Page, nodes: seq<Box>, heights: Heights, numberOf: Numbers)
    requires forall i :: 0 <= i < |nodes| ==> !nodes[i].face.lane
    requires page.boxes == nodes
    ensures multiset(Faces(Freeform(page, nodes, heights, numberOf).boxes)) == multiset(Faces(nodes))
  {
    if nodes != [] {
      var ordered := Ordered(nodes, numberOf);
      SortKeepsElements(nodes, ByNumber(numberOf));
      hide SortBy, InCells, Faces;
      RearrangedFaces(ordered, nodes);
      forall i | 0 <= i < |ordered| ensures !ordered[i].face.lane {
        assert ordered[i] in multiset(ordered);
        assert ordered[i] in nodes;
      }
      FacesInCells(ordered, heights);
    }
  }

  lemma FacesInCells(ordered: seq<Box>, heights: Heights)
    requires forall i :: 0 <= i < |ordered| ==> !ordered[i].face.lane
    ensures Faces(InCells(ordered, heights)) == Faces(ordered)
  {
    hide CellRect;
  }

  lemma {:induction false} CellIsOnThePage(ordered: seq<Box>, i: nat, heights: Heights)
    requires i < |ordered|
    ensures Inside(CellRect(ordered, i, heights),
                   Rect(0.0, 0.0, PageWidth(Cols(|ordered|)) as real, PageHeight(ordered, heights) as real))
  {
    var n, cols := |ordered|, Cols(|ordered|);
    var row := RowOf(i, cols);
    CellsSnake(i, cols);
    RowsAscend(i, n - 1, cols);
    RowsAreBelow(ordered, row, RowCount(n), heights);
    hide RowOf, RowTop, FullHeight, ColOf;
  }
}
