/** Where every box of a page without lanes is, in figures. */
module FreeformPlacement {
  import opened Sorting
  import opened DiagramPages
  import opened DiagramPlacement
  import opened FreeformLayout
  import opened Options
  import opened Reals

  // ----- Order -----

  /** The number that counts: zero is as good as none that is known. */
  function Standing(n: Option<nat>): nat {
    match n
    case None => 9999
    case Some(k) => if k > 0 then k else 9999
  }

  /** Numbered before unnumbered, by number, from top to bottom, from left to right. */
  predicate MayPrecede(a: Box, b: Box, numberOf: Numbers) {
    var m, n := numberOf(a.face.text), numberOf(b.face.text);
    || (m != None && n == None)
    || ((m == None <==> n == None) && Standing(m) < Standing(n))
    || ((m == None <==> n == None) && Standing(m) == Standing(n) && a.at.y < b.at.y)
    || ((m == None <==> n == None) && Standing(m) == Standing(n) && a.at.y == b.at.y && a.at.x <= b.at.x)
  }

  lemma OrderedIs(nodes: seq<Box>, numberOf: Numbers)
    ensures var s := Ordered(nodes, numberOf);
      multiset(s) == multiset(nodes) && |s| == |nodes|
      && forall i, j :: 0 <= i < j < |s| ==> MayPrecede(s[i], s[j], numberOf)
  {
    ByNumberIsOrder(numberOf);
    SortSorts(nodes, ByNumber(numberOf));
    SortKeepsElements(nodes, ByNumber(numberOf));
    hide SortBy, IsOrder;
    var s := Ordered(nodes, numberOf);
    assert |multiset(s)| == |s|;
    forall i, j | 0 <= i < j < |s| ensures MayPrecede(s[i], s[j], numberOf) {
      assert ByNumber(numberOf)(s[i], s[j]);
    }
  }

  // ----- Cells -----

  function Columns(n: nat): nat { if n < 8 then 3 else 4 }

  /** The `i`-th box's row and column: even rows run to the right, odd ones back. */
  predicate IsCell(i: nat, n: nat, row: nat, col: nat) {
    col < Columns(n) && i == Columns(n) * row + if row % 2 == 0 then col else Columns(n) - 1 - col
  }

  lemma CellIs(i: nat, n: nat)
    ensures IsCell(i, n, RowOf(i, Cols(n)), ColOf(i, Cols(n)))
  {
    if n < 8 {
    } else {
    }
  }

  lemma CellIsUnique(i: nat, n: nat, row: nat, col: nat)
    requires IsCell(i, n, row, col)
    ensures row == RowOf(i, Cols(n)) && col == ColOf(i, Cols(n))
  {
    if n < 8 {
    } else {
    }
  }

  ghost predicate IsInRow(i: nat, n: nat, row: nat) {
    exists col :: IsCell(i, n, row, col)
  }

  /** The height of the row's highest label, among the first `n` boxes. */
  ghost predicate IsHighestOf(ordered: seq<Box>, row: nat, n: nat, h: real, heights: Heights)
    requires n <= |ordered|
  {
    && h >= 0.0
    && (forall i: nat :: i < n && IsInRow(i, |ordered|, row) ==> heights(ordered[i].face.text, 360.0, 15) <= h)
    && (h == 0.0 || exists i: nat :: i < n && IsInRow(i, |ordered|, row) && heights(ordered[i].face.text, 360.0, 15) == h)
  }

  ghost predicate IsHighest(ordered: seq<Box>, row: nat, h: real, heights: Heights) {
    IsHighestOf(ordered, row, |ordered|, h, heights)
  }

  lemma {:induction false} RowHeightIs(ordered: seq<Box>, row: nat, n: nat, heights: Heights)
    requires n <= |ordered|
    ensures IsHighestOf(ordered, row, n, RowHeight(ordered, row, n, heights), heights)
    decreases n
  {
    hide RowOf, Cols, IsInRow;
    if n > 0 {
      RowHeightIs(ordered, row, n - 1, heights);
      InRowIff(n - 1, |ordered|, row);
    }
  }

  lemma InRowIff(i: nat, n: nat, row: nat)
    ensures IsInRow(i, n, row) <==> RowOf(i, Cols(n)) == row
  {
    CellIs(i, n);
    hide RowOf, ColOf, Cols, IsCell;
    if IsInRow(i, n, row) {
      var col :| IsCell(i, n, row, col);
      CellIsUnique(i, n, row, col);
    }
  }

  lemma FullHeightIs(ordered: seq<Box>, row: nat, heights: Heights)
    ensures IsHighest(ordered, row, FullHeight(ordered, row, heights), heights)
  {
    RowHeightIs(ordered, row, |ordered|, heights);
    hide RowHeight, IsInRow;
  }

  /** What each row takes, with the gap below it. */
  function RowPitch(tall: nat -> real): nat -> real {
    (row: nat) => tall(row) + 155.0
  }

  lemma {:induction false} RowTopIs(ordered: seq<Box>, row: nat, heights: Heights, tall: nat -> real)
    requires forall q: nat :: tall(q) == FullHeight(ordered, q, heights)
    ensures RowTop(ordered, row, heights) == 70.0 + Sum(row, RowPitch(tall))
  {
    hide FullHeight;
    if row > 0 {
      RowTopIs(ordered, row - 1, heights, tall);
    }
  }

  // ----- The page -----

  /** The boxes in their cells, 70 from the edges, 90 and 155 apart. */
  ghost predicate IsFreeformPage(page: Page, r: Page, ordered: seq<Box>, tall: nat -> real, rows: nat, heights: Heights) {
    var n := |ordered|;
    && (r.sourceName, r.index, r.name, r.edges) == (page.sourceName, page.index, page.name, page.edges)
    && r.width == (if n < 8 then 1400 else 1850)
    && (rows - 1) * Columns(n) < n <= rows * Columns(n)
    && (forall row: nat :: IsHighest(ordered, row, tall(row), heights))
    && 140.0 + Sum(rows, RowPitch(tall)) <= r.height as real < 141.0 + Sum(rows, RowPitch(tall))
    && |r.boxes| == n
    && forall i: nat, row: nat, col: nat :: i < n && IsCell(i, n, row, col) ==>
         r.boxes[i] == Box(ordered[i].face.(lane := false),
                           Rect(70.0 + 450.0 * col as real, 70.0 + Sum(row, RowPitch(tall)), 360.0, tall(row)))
  }

  lemma WidthIs(n: nat)
    ensures PageWidth(Cols(n)) == if n < 8 then 1400 else 1850
  {
  }

  lemma RowsAre(n: nat)
    requires n > 0
    ensures (RowCount(n) - 1) * Columns(n) < n <= RowCount(n) * Columns(n)
  {
  }

  lemma BoxIs(ordered: seq<Box>, i: nat, row: nat, col: nat, heights: Heights, tall: nat -> real)
    requires i < |ordered| && IsCell(i, |ordered|, row, col)
    requires forall q: nat :: tall(q) == FullHeight(ordered, q, heights)
    ensures InCells(ordered, heights)[i]
         == Box(ordered[i].face.(lane := false),
                Rect(70.0 + 450.0 * col as real, 70.0 + Sum(row, RowPitch(tall)), 360.0, tall(row)))
  {
    CellIsUnique(i, |ordered|, row, col);
    RowTopIs(ordered, row, heights, tall);
    hide RowOf, ColOf, RowTop, FullHeight, Sum;
  }

  /** Every page without lanes but with boxes is laid out so. */
  lemma FreeformPageIs(page: Page, nodes: seq<Box>, heights: Heights, numberOf: Numbers)
      returns (ordered: seq<Box>, tall: nat -> real, rows: nat)
    requires nodes != []
    ensures multiset(ordered) == multiset(nodes)
    ensures forall i, j :: 0 <= i < j < |ordered| ==> MayPrecede(ordered[i], ordered[j], numberOf)
    ensures IsFreeformPage(page, Freeform(page, nodes, heights, numberOf), ordered, tall, rows, heights)
  {
    hide Ordered, MayPrecede, IsHighest, FullHeight, Sum, RowPitch, IsCell, Columns, PageWidth, RowCount, RowTop, InCells;
    ordered := Ordered(nodes, numberOf);
    var s := ordered;
    tall := (q: nat) => FullHeight(s, q, heights);
    rows := RowCount(|ordered|);
    OrderedIs(nodes, numberOf);
    WidthIs(|ordered|);
    RowsAre(|ordered|);
    RowTopIs(ordered, rows, heights, tall);
    forall row: nat ensures IsHighest(ordered, row, tall(row), heights) {
      FullHeightIs(ordered, row, heights);
    }
    forall i: nat, row: nat, col: nat | i < |ordered| && IsCell(i, |ordered|, row, col)
      ensures InCells(ordered, heights)[i]
           == Box(ordered[i].face.(lane := false),
                  Rect(70.0 + 450.0 * col as real, 70.0 + Sum(row, RowPitch(tall)), 360.0, tall(row)))
    {
      BoxIs(ordered, i, row, col, heights, tall);
    }
  }
}
