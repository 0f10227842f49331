/** Where every box of a laid-out page is, in figures. */
module DiagramPlacement {
  import opened Sorting
  import opened SeqOfSeqs
  import opened DiagramPages
  import opened LaneLayout
  import opened Reals
  import FreeformLayout

  /** The sum of `f` at the numbers below `n`. */
  function Sum(n: nat, f: nat -> real): real {
    if n == 0 then 0.0 else Sum(n - 1, f) + f(n - 1)
  }

  lemma {:induction false} SumSame(n: nat, f: nat -> real, g: nat -> real)
    requires forall i: nat :: i < n ==> f(i) == g(i)
    ensures Sum(n, f) == Sum(n, g)
  {
    if n > 0 {
      SumSame(n - 1, f, g);
    }
  }

  // ----- Orders -----

  /** Higher, or as high and farther left, or in the same place with a smaller id. */
  predicate ComesFirst(a: Box, b: Box) {
    || a.at.y < b.at.y
    || (a.at.y <= b.at.y && a.at.x < b.at.x)
    || (a.at.y <= b.at.y && a.at.x <= b.at.x && TextLeq(a.face.id, b.face.id))
  }

  /** `s` is `t` in another order, in which whatever comes later does not come first. */
  ghost predicate IsInReadingOrder(s: seq<Box>, t: seq<Box>) {
    multiset(s) == multiset(t) && forall i, j :: 0 <= i < j < |s| ==> ComesFirst(s[i], s[j])
  }

  lemma SortedReads(t: seq<Box>)
    ensures IsInReadingOrder(SortBy(t, HigherFirst), t)
  {
    HigherFirstIsOrder();
    SortSorts(t, HigherFirst);
    SortKeepsElements(t, HigherFirst);
    hide SortBy, TextLeq, IsOrder;
    var s := SortBy(t, HigherFirst);
    forall i, j | 0 <= i < j < |s| ensures ComesFirst(s[i], s[j]) {
      assert HigherFirst(s[i], s[j]);
    }
  }

  /** The page's lanes, from left to right. */
  lemma LanesRunRight(boxes: seq<Box>, i: nat, j: nat)
    requires i < j < |Lanes(boxes)|
    ensures Lanes(boxes)[i].at.x <= Lanes(boxes)[j].at.x
  {
    LeftFirstIsOrder();
    SortSorts(Filter(boxes, IsLane()), LeftFirst);
    hide SortBy, Filter, IsOrder;
    assert LeftFirst(Lanes(boxes)[i], Lanes(boxes)[j]);
  }

  lemma LeftFirstIsOrder()
    ensures IsOrder(LeftFirst)
  {
  }

  // ----- Which column a node goes to -----

  /** The node's middle is in the lane. */
  predicate Contains(lane: Box, node: Box) {
    && 2.0 * lane.at.x <= 2.0 * node.at.x + node.at.w <= 2.0 * (lane.at.x + lane.at.w)
    && 2.0 * lane.at.y <= 2.0 * node.at.y + node.at.h <= 2.0 * (lane.at.y + lane.at.h)
  }

  /** Twice the distance of their middles, sideways. */
  function Off(lane: Box, node: Box): real {
    var d := (2.0 * lane.at.x + lane.at.w) - (2.0 * node.at.x + node.at.w);
    if d < 0.0 then -d else d
  }

  /** The `k`-th lane is the first to contain the node, or, if none does, the first of
      those nearest to it. */
  ghost predicate IsHome(lanes: seq<Box>, node: Box, k: nat) {
    && k < |lanes|
    && if exists i :: 0 <= i < |lanes| && Contains(lanes[i], node)
       then Contains(lanes[k], node) && forall i :: 0 <= i < k ==> !Contains(lanes[i], node)
       else forall i :: 0 <= i < |lanes| ==>
              if i < k then Off(lanes[k], node) < Off(lanes[i], node) else Off(lanes[k], node) <= Off(lanes[i], node)
  }

  lemma ContainsIff(lane: Box, node: Box)
    ensures Contains(lane, node) <==> HoldsCenter(lane, node)
    ensures Off(lane, node) == 2.0 * Distance(lane, node)
  {
  }

  lemma {:induction false} FirstOfFilter(s: seq<Box>, p: Box -> bool) returns (k: nat)
    requires Filter(s, p) != []
    ensures k < |s| && Filter(s, p)[0] == s[k] && p(s[k]) && forall i :: 0 <= i < k ==> !p(s[i])
    decreases |s|
  {
    var n := |s| - 1;
    if Filter(s[..n], p) != [] {
      k := FirstOfFilter(s[..n], p);
    } else {
      FilterIn(s[..n], p);
      k := n;
      forall i | 0 <= i < n ensures !p(s[i]) {
        assert s[i] in s[..n];
        assert s[..n][i] == s[i];
      }
    }
  }

  lemma HomeIs(lanes: seq<Box>, node: Box) returns (k: nat)
    requires lanes != []
    ensures IsHome(lanes, node, k) && LaneFor(lanes, node) == lanes[k]
  {
    hide Contains, HoldsCenter, Off, Distance;
    forall i | 0 <= i < |lanes|
      ensures Contains(lanes[i], node) <==> HoldsCenter(lanes[i], node)
      ensures Off(lanes[i], node) == 2.0 * Distance(lanes[i], node)
    {
      ContainsIff(lanes[i], node);
    }
    FilterIn(lanes, Containing(node));
    if Filter(lanes, Containing(node)) != [] {
      k := FirstOfFilter(lanes, Containing(node));
      forall i | 0 <= i < k ensures !Contains(lanes[i], node) {
        assert !Containing(node)(lanes[i]);
      }
      assert Containing(node)(lanes[k]);
    } else {
      forall i | 0 <= i < |lanes| ensures !Contains(lanes[i], node) {
        assert lanes[i] in lanes;
        assert lanes[i] !in Filter(lanes, Containing(node));
      }
      k := FirstSmallest(Distances(lanes, node));
      var d := Distances(lanes, node);
      forall i | 0 <= i < |lanes|
        ensures if i < k then Off(lanes[k], node) < Off(lanes[i], node) else Off(lanes[k], node) <= Off(lanes[i], node)
      {
        assert d[k] == Distance(lanes[k], node) && d[i] == Distance(lanes[i], node);
      }
    }
  }

  /** More than a third again, and a bit, as wide as every lane. */
  ghost predicate IsWide(lanes: seq<Box>, node: Box) {
    forall i :: 0 <= i < |lanes| ==> 100.0 * node.at.w > 135.0 * lanes[i].at.w
  }

  lemma WideIff(lanes: seq<Box>, node: Box)
    requires lanes != []
    ensures Spans(lanes)(node) <==> IsWide(lanes, node)
  {
    var w := WidestLane(lanes);
    var k :| 0 <= k < |lanes| && lanes[k].at.w == w;
    hide WidestLane;
    if Spans(lanes)(node) {
      forall i | 0 <= i < |lanes| ensures 100.0 * node.at.w > 135.0 * lanes[i].at.w {
        assert lanes[i].at.w <= w;
      }
    }
  }

  /** The node stands in the column of the `k`-th lane: it is not too wide, and its home
      has that lane's id. */
  ghost predicate BelongsTo(lanes: seq<Box>, node: Box, k: nat)
    requires k < |lanes|
  {
    !IsWide(lanes, node) && exists h: nat :: IsHome(lanes, node, h) && lanes[h].face.id == lanes[k].face.id
  }

  lemma HomeIsUnique(lanes: seq<Box>, node: Box, j: nat, k: nat)
    requires IsHome(lanes, node, j) && IsHome(lanes, node, k)
    ensures j == k
  {
    hide Contains, Off;
  }

  lemma BelongsIff(lanes: seq<Box>, node: Box, k: nat)
    requires k < |lanes|
    ensures GoesTo(lanes, lanes[k].face.id)(node) <==> BelongsTo(lanes, node, k)
  {
    WideIff(lanes, node);
    var h := HomeIs(lanes, node);
    hide IsWide, IsHome, Spans, LaneFor;
    if BelongsTo(lanes, node, k) {
      var j: nat :| IsHome(lanes, node, j) && lanes[j].face.id == lanes[k].face.id;
      HomeIsUnique(lanes, node, j, h);
    }
  }

  // ----- A column of boxes -----

  /** The boxes are the nodes, in order, in a column from `top` down with `gap` between
      them, each as high as its label needs at its width. */
  ghost predicate IsColumn(boxes: seq<Box>, nodes: seq<Box>, left: Box -> real, width: Box -> real,
                           top: real, gap: real, heights: Heights)
  {
    && |boxes| == |nodes|
    && forall i :: 0 <= i < |boxes| ==>
         && boxes[i].face == nodes[i].face.(lane := false)
         && boxes[i].at == Rect(left(nodes[i]), top + Sum(i, Pitch(nodes, width, gap, heights)), width(nodes[i]),
                                heights(nodes[i].face.text, width(nodes[i]), 16))
  }

  /** What each node takes of the column. */
  function Pitch(nodes: seq<Box>, width: Box -> real, gap: real, heights: Heights): nat -> real {
    (j: nat) => if j < |nodes| then heights(nodes[j].face.text, width(nodes[j]), 16) + gap else 0.0
  }

  lemma PitchOfFront(nodes: seq<Box>, n: nat, i: nat, width: Box -> real, gap: real, heights: Heights)
    requires i <= n <= |nodes|
    ensures Sum(i, Pitch(nodes[..n], width, gap, heights)) == Sum(i, Pitch(nodes, width, gap, heights))
  {
    SumSame(i, Pitch(nodes[..n], width, gap, heights), Pitch(nodes, width, gap, heights));
  }

  lemma {:induction false} BelowIsSum(nodes: seq<Box>, frame: Frame, top: real, gap: real, heights: Heights, width: Box -> real)
    requires forall b :: width(b) == WidthIn(frame, b)
    ensures Below(nodes, frame, top, gap, heights) == top + Sum(|nodes|, Pitch(nodes, width, gap, heights))
    decreases |nodes|
  {
    hide WidthIn;
    if nodes != [] {
      var n := |nodes| - 1;
      BelowIsSum(nodes[..n], frame, top, gap, heights, width);
      PitchOfFront(nodes, n, n, width, gap, heights);
    }
  }

  lemma {:induction false} StackIsColumn(nodes: seq<Box>, frame: Frame, top: real, gap: real, heights: Heights,
                                         left: Box -> real, width: Box -> real)
    requires forall b :: width(b) == WidthIn(frame, b) && left(b) == LeftIn(frame, b)
    ensures IsColumn(Stack(nodes, frame, top, gap, heights), nodes, left, width, top, gap, heights)
    decreases |nodes|
  {
    hide WidthIn, LeftIn, Below, Sum;
    if nodes != [] {
      var n := |nodes| - 1;
      StackIsColumn(nodes[..n], frame, top, gap, heights, left, width);
      BelowIsSum(nodes[..n], frame, top, gap, heights, width);
      PitchOfFront(nodes, n, n, width, gap, heights);
      forall i | 0 <= i < n ensures Sum(i, Pitch(nodes[..n], width, gap, heights)) == Sum(i, Pitch(nodes, width, gap, heights)) {
        PitchOfFront(nodes, n, i, width, gap, heights);
      }
      hide Pitch;
    }
  }

  // ----- A page with lanes -----

  function LaneWidth(n: nat): real { if n < 4 then 460.0 else 430.0 }

  function LaneX(n: nat, k: nat): real { 42.0 + (LaneWidth(n) + 76.0) * k as real }

  /** The page, in parts: the lanes, each lane's column, the wide nodes. */
  ghost predicate IsLanePage(page: Page, r: Page, lanes: seq<Box>, parts: seq<seq<Box>>, columns: seq<seq<Box>>,
                             wide: seq<Box>, height: real, heights: Heights)
  {
    var n := |lanes|;
    && n > 0 && |parts| == n + 2 && |columns| == n && r.boxes == Flatten(parts)
    && (r.sourceName, r.index, r.name, r.edges) == (page.sourceName, page.index, page.name, page.edges)
    && r.width as real == 84.0 + LaneWidth(n) * n as real + 76.0 * (n - 1) as real
    && parts[0] == seq(n, k requires 0 <= k < n =>
         Box(lanes[k].face.(lane := true), Rect(LaneX(n, k), 42.0, LaneWidth(n), height)))
    && (forall k :: 0 <= k < n ==> IsLaneColumn(parts[k + 1], columns[k], n, k, heights))
    && IsColumn(parts[n + 1], wide, WideLeft(r.width), WideWidth(r.width), 84.0 + height, 34.0, heights)
    && IsLowest(n, columns, height, heights)
    && IsTallEnough(r.height, height, 126.0 + height + Sum(|wide|, Pitch(wide, WideWidth(r.width), 34.0, heights)))
  }

  /** Inside the lane by 44, below its title by 82, with 42 between. */
  ghost predicate IsLaneColumn(boxes: seq<Box>, nodes: seq<Box>, n: nat, k: nat, heights: Heights) {
    IsColumn(boxes, nodes, b => LaneX(n, k) + 44.0, b => LaneWidth(n) - 88.0, 124.0, 42.0, heights)
  }

  function WideWidth(pageWidth: int): Box -> real {
    (b: Box) =>
      var w := if b.at.w < 780.0 then 780.0 else b.at.w;
      if pageWidth as real - 204.0 < w then pageWidth as real - 204.0 else w
  }

  function WideLeft(pageWidth: int): Box -> real {
    (b: Box) => (pageWidth as real - WideWidth(pageWidth)(b)) / 2.0
  }

  /** The lanes reach 41 below the longest column. */
  ghost predicate IsLowest(n: nat, columns: seq<seq<Box>>, height: real, heights: Heights)
    requires |columns| == n
  {
    && (forall k :: 0 <= k < n ==> ColumnLength(columns[k], n, heights) <= height)
    && exists k :: 0 <= k < n && ColumnLength(columns[k], n, heights) == height
  }

  function ColumnLength(nodes: seq<Box>, n: nat, heights: Heights): real {
    82.0 + Sum(|nodes|, Pitch(nodes, b => LaneWidth(n) - 88.0, 42.0, heights)) + 41.0
  }

  /** The least whole height that leaves 42 below the lanes and below the wide nodes. */
  predicate IsTallEnough(pageHeight: int, height: real, end: real) {
    var need := if end < 84.0 + height then 84.0 + height else end;
    need <= pageHeight as real < need + 1.0
  }

  lemma WidthIsWhole(lanes: seq<Box>)
    requires lanes != []
    ensures var n := |lanes|;
      PageWidth(lanes) as real == 84.0 + LaneWidth(n) * n as real + 76.0 * (n - 1) as real
  {
    hide Ceil;
    var n := |lanes|;
    var w := if n < 4 then 460 else 430;
    InWhole(n, w);
    CeilOfWhole(84 + w * n + 76 * (n - 1));
  }

  lemma InWhole(n: nat, w: nat)
    requires n > 0
    ensures 84.0 + n as real * w as real + (n - 1) as real * 76.0 == (84 + w * n + 76 * (n - 1)) as real
    ensures 84.0 + w as real * n as real + 76.0 * (n - 1) as real == (84 + w * n + 76 * (n - 1)) as real
  {
    assert n as real * w as real == (w * n) as real;
  }

  lemma CeilOfWhole(i: int)
    ensures Ceil(i as real) == i
  {
  }

  lemma {:induction false} ColumnsAreParts(lanes: seq<Box>, nodes: seq<Box>, m: nat, heights: Heights, parts: seq<seq<Box>>)
    requires m <= |lanes| == |parts| && forall k :: 0 <= k < |lanes| ==> parts[k] == ColumnOf(lanes, nodes, k, heights)
    ensures Flatten(parts[..m]) == Columns(lanes, nodes, m, heights)
    decreases m
  {
    hide ColumnOf;
    if m > 0 {
      ColumnsAreParts(lanes, nodes, m - 1, heights, parts);
      assert parts[..m] == parts[..m - 1] + [parts[m - 1]];
      FlattenAppend(parts[..m - 1], parts[m - 1]);
    }
  }

  lemma FlattenThree(a: seq<Box>, parts: seq<seq<Box>>, b: seq<Box>)
    ensures Flatten([a] + parts + [b]) == a + Flatten(parts) + b
  {
    hide *;
    FlattenAppend([a] + parts, b);
    FlattenFirst(a, parts);
  }

  lemma LaneColumnIs(lanes: seq<Box>, nodes: seq<Box>, k: nat, heights: Heights)
    requires k < |lanes|
    ensures IsLaneColumn(ColumnOf(lanes, nodes, k, heights), ColumnNodes(lanes, nodes, k), |lanes|, k, heights)
    ensures ColumnEnd(lanes, nodes, k, heights) == 42.0 + ColumnLength(ColumnNodes(lanes, nodes, k), |lanes|, heights)
  {
    var n := |lanes|;
    var frame := ColumnFrame(lanes, k);
    assert LaneLeft(lanes, k) == LaneX(n, k);
    hide Stack, Below, ColumnNodes, IsColumn, Sum, Pitch, LaneLeft, LaneX;
    StackIsColumn(ColumnNodes(lanes, nodes, k), frame, 124.0, 42.0, heights, b => LaneX(n, k) + 44.0, b => LaneWidth(n) - 88.0);
    BelowIsSum(ColumnNodes(lanes, nodes, k), frame, 124.0, 42.0, heights, b => LaneWidth(n) - 88.0);
  }

  lemma {:induction false} LowestIs(lanes: seq<Box>, nodes: seq<Box>, m: nat, heights: Heights) returns (k: nat)
    requires 0 < m <= |lanes|
    ensures k < m && LowestEnd(lanes, nodes, m, heights) == ColumnEnd(lanes, nodes, k, heights)
    ensures forall j :: 0 <= j < m ==> ColumnEnd(lanes, nodes, j, heights) <= LowestEnd(lanes, nodes, m, heights)
    decreases m
  {
    hide ColumnEnd;
    if m == 1 {
      k := 0;
    } else {
      k := LowestIs(lanes, nodes, m - 1, heights);
      if ColumnEnd(lanes, nodes, k, heights) < ColumnEnd(lanes, nodes, m - 1, heights) {
        k := m - 1;
      }
    }
  }

  lemma HeightIsLowest(lanes: seq<Box>, nodes: seq<Box>, heights: Heights, columns: seq<seq<Box>>)
    requires lanes != [] && |columns| == |lanes|
    requires forall k :: 0 <= k < |lanes| ==> columns[k] == ColumnNodes(lanes, nodes, k)
    ensures IsLowest(|lanes|, columns, LaneHeight(lanes, nodes, heights), heights)
  {
    var k := LowestIs(lanes, nodes, |lanes|, heights);
    hide ColumnNodes, ColumnEnd, LowestEnd, ColumnLength, IsLaneColumn, ColumnOf;
    forall j | 0 <= j < |lanes|
      ensures ColumnEnd(lanes, nodes, j, heights) == 42.0 + ColumnLength(columns[j], |lanes|, heights)
    {
      LaneColumnIs(lanes, nodes, j, heights);
    }
  }

  lemma WideIs(lanes: seq<Box>, nodes: seq<Box>, heights: Heights)
    requires lanes != []
    ensures var w, wide, height := PageWidth(lanes), SpanningNodes(lanes, nodes), LaneHeight(lanes, nodes, heights);
      && IsColumn(SpanningStack(lanes, nodes, heights), wide, WideLeft(w), WideWidth(w), 84.0 + height, 34.0, heights)
      && SpanningEnd(lanes, nodes, heights) == 84.0 + height + Sum(|wide|, Pitch(wide, WideWidth(w), 34.0, heights))
  {
    hide PageWidth, SpanningNodes, LaneHeight, Stack, Below, IsColumn, Sum, Pitch, WideLeft, WideWidth, WidthIn, LeftIn;
    var w, wide, height := PageWidth(lanes), SpanningNodes(lanes, nodes), LaneHeight(lanes, nodes, heights);
    WideFrame(w);
    StackIsColumn(wide, Middle(w as real), 84.0 + height, 34.0, heights, WideLeft(w), WideWidth(w));
    BelowIsSum(wide, Middle(w as real), 84.0 + height, 34.0, heights, WideWidth(w));
  }

  lemma WideFrame(w: int)
    ensures forall b :: WideWidth(w)(b) == WidthIn(Middle(w as real), b) && WideLeft(w)(b) == LeftIn(Middle(w as real), b)
  {
  }

  lemma HeightIsTallEnough(lanes: seq<Box>, nodes: seq<Box>, heights: Heights, height: real, end: real)
    requires lanes != [] && height == LaneHeight(lanes, nodes, heights) && end == SpanningEnd(lanes, nodes, heights) + 42.0
    ensures IsTallEnough(PageHeight(lanes, nodes, heights), height, end)
  {
    hide LaneHeight, SpanningEnd;
  }

  /** Every page with lanes is laid out so: the lanes in a row, 42 from the edges and 76
      apart, all as high as the longest column needs; in each the nodes that belong to
      it, and below them the wide ones, in reading order. */
  lemma LanePageIs(page: Page, heights: Heights)
      returns (parts: seq<seq<Box>>, columns: seq<seq<Box>>, wide: seq<Box>, height: real)
    requires Lanes(page.boxes) != []
    ensures IsLanePage(page, Relaid(page, heights), Lanes(page.boxes), parts, columns, wide, height, heights)
    ensures var lanes, nodes := Lanes(page.boxes), Filter(page.boxes, IsNode());
      && (forall k :: 0 <= k < |lanes| ==> columns[k] == ColumnNodes(lanes, nodes, k))
      && wide == SpanningNodes(lanes, nodes)
  {
    hide *;
    var lanes, nodes := Lanes(page.boxes), Filter(page.boxes, IsNode());
    var n := |lanes|;
    height := LaneHeight(lanes, nodes, heights);
    columns := seq(n, k requires 0 <= k < n => ColumnNodes(lanes, nodes, k));
    wide := SpanningNodes(lanes, nodes);
    parts := PartsOf(lanes, nodes, heights);
    RelaidIs(page, heights);
    WidthIsWhole(lanes);
    HeightIsLowest(lanes, nodes, heights, columns);
    WideIs(lanes, nodes, heights);
    HeightIsTallEnough(lanes, nodes, heights, height, SpanningEnd(lanes, nodes, heights) + 42.0);
    forall k | 0 <= k < n ensures IsLaneColumn(parts[k + 1], columns[k], n, k, heights) {
      LaneColumnIs(lanes, nodes, k, heights);
    }
    LaneBoxesAre(lanes, height);
    PageOf(page, Relaid(page, heights), lanes, parts, columns, wide, height, heights,
      126.0 + height + Sum(|wide|, Pitch(wide, WideWidth(PageWidth(lanes)), 34.0, heights)));
  }

  lemma PartsOf(lanes: seq<Box>, nodes: seq<Box>, heights: Heights) returns (parts: seq<seq<Box>>)
    requires lanes != []
    ensures |parts| == |lanes| + 2 && parts[0] == LaneBoxes(lanes, LaneHeight(lanes, nodes, heights))
    ensures forall k :: 0 <= k < |lanes| ==> parts[k + 1] == ColumnOf(lanes, nodes, k, heights)
    ensures parts[|lanes| + 1] == SpanningStack(lanes, nodes, heights)
    ensures Flatten(parts) == LaneBoxes(lanes, LaneHeight(lanes, nodes, heights)) + NewNodes(lanes, nodes, heights)
  {
    hide LaneBoxes, LaneHeight, ColumnOf, SpanningStack, Columns, Flatten;
    var n := |lanes|;
    var own := seq(n, k requires 0 <= k < n => ColumnOf(lanes, nodes, k, heights));
    var a, b := LaneBoxes(lanes, LaneHeight(lanes, nodes, heights)), SpanningStack(lanes, nodes, heights);
    parts := [a] + own + [b];
    ColumnsAreParts(lanes, nodes, n, heights, own);
    assert own[..n] == own;
    FlattenThree(a, own, b);
    assert a + Columns(lanes, nodes, n, heights) + b == a + (Columns(lanes, nodes, n, heights) + b);
  }

  lemma RelaidIs(page: Page, heights: Heights)
    requires Lanes(page.boxes) != []
    ensures var lanes, nodes, r := Lanes(page.boxes), Filter(page.boxes, IsNode()), Relaid(page, heights);
      && (r.sourceName, r.index, r.name, r.edges) == (page.sourceName, page.index, page.name, page.edges)
      && r.width == PageWidth(lanes) && r.height == PageHeight(lanes, nodes, heights)
      && r.boxes == LaneBoxes(lanes, LaneHeight(lanes, nodes, heights)) + NewNodes(lanes, nodes, heights)
  {
    hide Lanes, Filter, PageWidth, PageHeight, LaneBoxes, LaneHeight, NewNodes;
  }

  lemma PageOf(page: Page, r: Page, lanes: seq<Box>, parts: seq<seq<Box>>, columns: seq<seq<Box>>, wide: seq<Box>,
               height: real, heights: Heights, end: real)
    requires var n := |lanes|; n > 0 && |parts| == n + 2 && |columns| == n && r.boxes == Flatten(parts)
    requires (r.sourceName, r.index, r.name, r.edges) == (page.sourceName, page.index, page.name, page.edges)
    requires r.width as real == 84.0 + LaneWidth(|lanes|) * |lanes| as real + 76.0 * (|lanes| - 1) as real
    requires parts[0] == seq(|lanes|, k requires 0 <= k < |lanes| =>
      Box(lanes[k].face.(lane := true), Rect(LaneX(|lanes|, k), 42.0, LaneWidth(|lanes|), height)))
    requires forall k :: 0 <= k < |lanes| ==> IsLaneColumn(parts[k + 1], columns[k], |lanes|, k, heights)
    requires IsColumn(parts[|lanes| + 1], wide, WideLeft(r.width), WideWidth(r.width), 84.0 + height, 34.0, heights)
    requires IsLowest(|lanes|, columns, height, heights)
    requires end == 126.0 + height + Sum(|wide|, Pitch(wide, WideWidth(r.width), 34.0, heights))
    requires IsTallEnough(r.height, height, end)
    ensures IsLanePage(page, r, lanes, parts, columns, wide, height, heights)
  {
    hide Flatten, LaneWidth, LaneX, IsLaneColumn, IsColumn, WideLeft, WideWidth, IsLowest, Sum, Pitch, IsTallEnough;
  }

  lemma LaneBoxesAre(lanes: seq<Box>, height: real)
    ensures var n := |lanes|;
      LaneBoxes(lanes, height) == seq(n, k requires 0 <= k < n =>
        Box(lanes[k].face.(lane := true), Rect(LaneX(n, k), 42.0, LaneWidth(n), height)))
  {
  }

  /** The nodes of a column are those that belong to its lane, and the wide ones those
      that are too wide for any, in reading order. */
  lemma ColumnsHoldTheirNodes(lanes: seq<Box>, nodes: seq<Box>, k: nat, node: Box)
    requires k < |lanes|
    ensures node in ColumnNodes(lanes, nodes, k) <==> node in nodes && BelongsTo(lanes, node, k)
    ensures node in SpanningNodes(lanes, nodes) <==> node in nodes && IsWide(lanes, node)
    ensures forall i, j :: 0 <= i < j < |ColumnNodes(lanes, nodes, k)| ==>
      ComesFirst(ColumnNodes(lanes, nodes, k)[i], ColumnNodes(lanes, nodes, k)[j])
    ensures forall i, j :: 0 <= i < j < |SpanningNodes(lanes, nodes)| ==>
      ComesFirst(SpanningNodes(lanes, nodes)[i], SpanningNodes(lanes, nodes)[j])
  {
    var own, wide := Filter(nodes, GoesTo(lanes, lanes[k].face.id)), Filter(nodes, Spans(lanes));
    FilterIn(nodes, GoesTo(lanes, lanes[k].face.id));
    FilterIn(nodes, Spans(lanes));
    BelongsIff(lanes, node, k);
    WideIff(lanes, node);
    SortedReads(own);
    SortedReads(wide);
    hide Filter, SortBy, BelongsTo, IsWide, GoesTo, Spans, ComesFirst;
    assert node in multiset(SortBy(own, HigherFirst)) <==> node in multiset(own);
    assert node in multiset(SortBy(wide, HigherFirst)) <==> node in multiset(wide);
  }
}
