/** What a page with lanes keeps, and where everything ends up. */
module LaneTheorems {
  import opened Sorting
  import opened DiagramPages
  import opened LaneLayout

  // ----- Geometry of the whole page -----

  lemma StackIsApart(s: seq<Box>, nodes: seq<Box>, frame: Frame, top: real, gap: real, bottom: real)
    requires IsStack(s, nodes, frame, top, gap, bottom) && gap > 0.0
    ensures AllApart(s)
  {
    hide LeftIn, WidthIn;
  }

  /** The strip below the lanes in which the wide nodes stay. */
  function SpanningRect(lanes: seq<Box>, nodes: seq<Box>, heights: Heights): Rect
    requires lanes != []
  {
    var top := SpanningTop(lanes, nodes, heights);
    Rect(102.0, top, PageWidth(lanes) as real - 204.0, SpanningEnd(lanes, nodes, heights) - top)
  }

  lemma MiddleIsOnThePage(pageWidth: int, node: Box)
    requires pageWidth >= 544
    ensures var frame := Middle(pageWidth as real);
      var x, w := LeftIn(frame, node), WidthIn(frame, node);
      w > 0.0 && 102.0 <= x && x + w <= 102.0 + (pageWidth as real - 204.0)
  {
  }

  lemma SpanningStaysBelow(lanes: seq<Box>, nodes: seq<Box>, heights: Heights)
    requires lanes != [] && AreTall(heights)
    ensures var s := SpanningStack(lanes, nodes, heights);
      && AllInside(s, SpanningRect(lanes, nodes, heights))
      && AllApart(s) && HaveArea(s) && LabelsFit(s, heights, LABEL_SIZE)
    ensures SpanningTop(lanes, nodes, heights) <= SpanningEnd(lanes, nodes, heights)
  {
    var frame := Middle(PageWidth(lanes) as real);
    var top, end := SpanningTop(lanes, nodes, heights), SpanningEnd(lanes, nodes, heights);
    var s, wide := SpanningStack(lanes, nodes, heights), SpanningNodes(lanes, nodes);
    assert s == Stack(wide, frame, top, SPANNING_GAP, heights) && end == Below(wide, frame, top, SPANNING_GAP, heights);
    assert SpanningRect(lanes, nodes, heights) == Rect(102.0, top, PageWidth(lanes) as real - 204.0, end - top);
    hide *;
    LanesAreOnThePage(lanes, 0);
    StackIsStack(wide, frame, top, SPANNING_GAP, heights);
    StackIsApart(s, wide, frame, top, SPANNING_GAP, end);
    MiddleStackIsInside(s, wide, PageWidth(lanes), top, SPANNING_GAP, end);
  }

  lemma MiddleStackIsInside(s: seq<Box>, nodes: seq<Box>, pageWidth: int, top: real, gap: real, bottom: real)
    requires pageWidth >= 544 && gap > 0.0 && IsStack(s, nodes, Middle(pageWidth as real), top, gap, bottom)
    ensures AllInside(s, Rect(102.0, top, pageWidth as real - 204.0, bottom - top)) && HaveArea(s) && top <= bottom
  {
    hide LeftIn, WidthIn;
    forall i | 0 <= i < |s|
      ensures Inside(s[i].at, Rect(102.0, top, pageWidth as real - 204.0, bottom - top)) && HasArea(s[i].at)
    {
      MiddleIsOnThePage(pageWidth, nodes[i]);
    }
  }

  /** The band that holds all lanes. */
  function Band(lanes: seq<Box>, height: real): Rect
    requires lanes != []
  {
    Rect(MARGIN, MARGIN, LaneLeft(lanes, |lanes| - 1) + ColumnWidth(lanes) - MARGIN, height)
  }

  /** No two boxes other than lanes overlap, and every label has room. */
  lemma NodesAreApart(lanes: seq<Box>, nodes: seq<Box>, heights: Heights)
    requires lanes != [] && AreTall(heights)
    ensures var s := NewNodes(lanes, nodes, heights);
      AllApart(s) && HaveArea(s) && LabelsFit(s, heights, LABEL_SIZE)
  {
    var height := LaneHeight(lanes, nodes, heights);
    ColumnsAreApart(lanes, nodes, |lanes|, heights);
    SpanningStaysBelow(lanes, nodes, heights);
    var columns, wide := Columns(lanes, nodes, |lanes|, heights), SpanningStack(lanes, nodes, heights);
    assert Apart(Band(lanes, height), SpanningRect(lanes, nodes, heights));
    InsideApart(columns, wide, Band(lanes, height), SpanningRect(lanes, nodes, heights));
    ApartConcat(columns, wide);
    hide AllApart, Columns, AreTall, SpanningStack, LaneHeight;
  }

  lemma InsideInside(s: seq<Box>, r: Rect, q: Rect)
    requires AllInside(s, r) && Inside(r, q)
    ensures AllInside(s, q)
  {
  }

  lemma InsideConcat(a: seq<Box>, b: seq<Box>, r: Rect)
    requires AllInside(a, r) && AllInside(b, r)
    ensures AllInside(a + b, r)
  {
  }

  lemma LanesAreInTheBand(lanes: seq<Box>, k: nat, height: real)
    requires k < |lanes|
    ensures Inside(LaneRect(lanes, k, height), Band(lanes, height))
  {
    LanesAreOnThePage(lanes, k);
    if k + 1 < |lanes| {
      LanesAreApart(lanes, k, |lanes| - 1, height);
    }
  }

  lemma BandAndStripAreOnThePage(lanes: seq<Box>, nodes: seq<Box>, heights: Heights)
    requires lanes != [] && AreTall(heights)
    ensures var page := Rect(0.0, 0.0, PageWidth(lanes) as real, PageHeight(lanes, nodes, heights) as real);
      && Inside(Band(lanes, LaneHeight(lanes, nodes, heights)), page)
      && Inside(SpanningRect(lanes, nodes, heights), page)
    ensures LaneHeight(lanes, nodes, heights) > 0.0
  {
    LanesAreOnThePage(lanes, |lanes| - 1);
    SpanningStaysBelow(lanes, nodes, heights);
    EveryColumnEnds(lanes, nodes, |lanes|, heights);
    StackIsStack(ColumnNodes(lanes, nodes, 0), ColumnFrame(lanes, 0), MARGIN + PADDING_Y, NODE_GAP, heights);
    hide PageWidth, LaneLeft, SpanningEnd, LowestEnd, Stack, Below, ColumnNodes, SpanningStack, ColumnFrame, AreTall;
    assert ColumnEnd(lanes, nodes, 0, heights) <= LowestEnd(lanes, nodes, |lanes|, heights);
  }

  /** All boxes are on the page. */
  lemma EverythingIsOnThePage(page: Page, heights: Heights)
    requires Lanes(page.boxes) != [] && AreTall(heights)
    ensures var relaid := Relaid(page, heights);
      AllInside(relaid.boxes, Rect(0.0, 0.0, relaid.width as real, relaid.height as real))
  {
    var lanes, nodes := Lanes(page.boxes), Filter(page.boxes, IsNode());
    var height := LaneHeight(lanes, nodes, heights);
    BandAndStripAreOnThePage(lanes, nodes, heights);
    ColumnsAreApart(lanes, nodes, |lanes|, heights);
    SpanningStaysBelow(lanes, nodes, heights);
    var sheet := Rect(0.0, 0.0, PageWidth(lanes) as real, PageHeight(lanes, nodes, heights) as real);
    forall k | 0 <= k < |lanes| ensures Inside(LaneBoxes(lanes, height)[k].at, Band(lanes, height)) {
      LanesAreInTheBand(lanes, k, height);
    }
    assert AllInside(LaneBoxes(lanes, height), Band(lanes, height));
    hide Inside, Columns, SpanningStack, AreTall, LaneHeight, PageWidth, PageHeight, LaneBoxes, Lanes, Filter, Band;
    hide AllInside, SpanningRect, AllApart, HaveArea, LabelsFit;
    InsideInside(LaneBoxes(lanes, height), Band(lanes, height), sheet);
    InsideInside(Columns(lanes, nodes, |lanes|, heights), Band(lanes, height), sheet);
    InsideInside(SpanningStack(lanes, nodes, heights), SpanningRect(lanes, nodes, heights), sheet);
    InsideConcat(Columns(lanes, nodes, |lanes|, heights), SpanningStack(lanes, nodes, heights), sheet);
    InsideConcat(LaneBoxes(lanes, height), NewNodes(lanes, nodes, heights), sheet);
  }

  // ----- Every node in its lane -----

  lemma {:induction false} ColumnIsPart(lanes: seq<Box>, nodes: seq<Box>, k: nat, m: nat, heights: Heights, b: Box)
    requires k < m <= |lanes| && b in ColumnOf(lanes, nodes, k, heights)
    ensures b in Columns(lanes, nodes, m, heights)
  {
    hide ColumnOf;
    if k < m - 1 {
      ColumnIsPart(lanes, nodes, k, m - 1, heights, b);
    }
  }

  /** A node that is not too wide ends up inside the lane it goes to. */
  lemma NodeIsInItsLane(lanes: seq<Box>, nodes: seq<Box>, i: nat, k: nat, heights: Heights) returns (b: Box)
    requires i < |nodes| && k < |lanes| && AreTall(heights)
    requires !Spans(lanes)(nodes[i]) && lanes[k].face.id == LaneFor(lanes, nodes[i]).face.id
    ensures b in NewNodes(lanes, nodes, heights) && b.face == nodes[i].face.(lane := false)
    ensures Inside(b.at, LaneRect(lanes, k, LaneHeight(lanes, nodes, heights)))
  {
    var goes := GoesTo(lanes, lanes[k].face.id);
    var column := ColumnNodes(lanes, nodes, k);
    assert goes(nodes[i]);
    FilterIn(nodes, goes);
    SortKeepsElements(Filter(nodes, goes), HigherFirst);
    assert nodes[i] in Filter(nodes, goes);
    assert nodes[i] in multiset(column);
    ColumnStaysInLane(lanes, nodes, k, heights);
    StackIsStack(column, ColumnFrame(lanes, k), MARGIN + PADDING_Y, NODE_GAP, heights);
    hide Filter, SortBy, Stack, Below, LaneFor, Spans, LeftIn, WidthIn, Inside, LaneRect, LaneHeight, Columns, AreTall;
    var j :| 0 <= j < |column| && column[j] == nodes[i];
    b := ColumnOf(lanes, nodes, k, heights)[j];
    ColumnIsPart(lanes, nodes, k, |lanes|, heights, b);
  }

  // ----- Every box once -----

  lemma SizesOfRearranged<T>(s: seq<T>, t: seq<T>, u: seq<T>)
    requires multiset(s) == multiset(t) + multiset(u)
    ensures |s| == |t| + |u|
  {
    assert |multiset(s)| == |s| && |multiset(t)| == |t| && |multiset(u)| == |u|;
  }

  /** The nodes that go to a lane whose id is among the first `m`. */
  function GoesToFirst(lanes: seq<Box>, m: nat): Box -> bool
    requires lanes != [] && m <= |lanes|
  {
    (node: Box) => !Spans(lanes)(node) && exists k :: 0 <= k < m && lanes[k].face.id == LaneFor(lanes, node).face.id
  }

  function FirstNodes(lanes: seq<Box>, nodes: seq<Box>, m: nat): seq<Box>
    requires lanes != [] && m <= |lanes|
  {
    Filter(nodes, GoesToFirst(lanes, m))
  }

  /** The nodes that go to lanes with the id of the k-th. */
  function OwnNodes(lanes: seq<Box>, nodes: seq<Box>, k: nat): seq<Box>
    requires k < |lanes|
  {
    Filter(nodes, GoesTo(lanes, lanes[k].face.id))
  }

  /** What stands in the first `m` columns. */
  function InColumns(lanes: seq<Box>, nodes: seq<Box>, m: nat): seq<Box>
    requires m <= |lanes|
  {
    if m == 0 then [] else InColumns(lanes, nodes, m - 1) + ColumnNodes(lanes, nodes, m - 1)
  }

  /** No node goes to a lane that shares its id with another lane. */
  ghost predicate NoSharedColumn(lanes: seq<Box>, nodes: seq<Box>)
    requires lanes != []
  {
    forall k, l :: 0 <= k < l < |lanes| && lanes[k].face.id == lanes[l].face.id ==> IsEmptyColumn(lanes, nodes, l)
  }

  ghost predicate IsEmptyColumn(lanes: seq<Box>, nodes: seq<Box>, k: nat)
    requires k < |lanes|
  {
    OwnNodes(lanes, nodes, k) == []
  }

  ghost predicate IsRepeated(lanes: seq<Box>, m: nat)
    requires m < |lanes|
  {
    exists k :: 0 <= k < m && lanes[k].face.id == lanes[m].face.id
  }

  lemma ColumnHolds(lanes: seq<Box>, nodes: seq<Box>, k: nat)
    requires k < |lanes|
    ensures multiset(ColumnNodes(lanes, nodes, k)) == multiset(OwnNodes(lanes, nodes, k))
    ensures |ColumnNodes(lanes, nodes, k)| == |OwnNodes(lanes, nodes, k)|
  {
    SortKeepsElements(OwnNodes(lanes, nodes, k), HigherFirst);
  }

  lemma FirstStep(lanes: seq<Box>, nodes: seq<Box>, m: nat)
    requires m < |lanes|
    ensures IsRepeated(lanes, m) ==> FirstNodes(lanes, nodes, m + 1) == FirstNodes(lanes, nodes, m)
    ensures !IsRepeated(lanes, m) ==>
      multiset(FirstNodes(lanes, nodes, m + 1))
        == multiset(FirstNodes(lanes, nodes, m)) + multiset(OwnNodes(lanes, nodes, m))
  {
    var p, q, r := GoesToFirst(lanes, m), GoesTo(lanes, lanes[m].face.id), GoesToFirst(lanes, m + 1);
    hide Spans, LaneFor, Filter;
    if IsRepeated(lanes, m) {
      assert forall i :: 0 <= i < |nodes| ==> r(nodes[i]) == p(nodes[i]);
      FilterSame(nodes, r, p);
    } else {
      assert forall i :: 0 <= i < |nodes| ==> (r(nodes[i]) <==> p(nodes[i]) || q(nodes[i])) && !(p(nodes[i]) && q(nodes[i]));
      FilterSplits(nodes, p, q, r);
    }
  }

  lemma {:induction false} NoneGoesToNone(lanes: seq<Box>, nodes: seq<Box>)
    requires lanes != []
    ensures FirstNodes(lanes, nodes, 0) == []
    decreases |nodes|
  {
    if nodes != [] {
      NoneGoesToNone(lanes, nodes[..|nodes| - 1]);
    }
  }

  lemma ColumnsGrow(lanes: seq<Box>, nodes: seq<Box>, m: nat)
    requires m < |lanes|
    ensures multiset(InColumns(lanes, nodes, m + 1))
         == multiset(InColumns(lanes, nodes, m)) + multiset(OwnNodes(lanes, nodes, m))
    ensures |InColumns(lanes, nodes, m + 1)| == |InColumns(lanes, nodes, m)| + |OwnNodes(lanes, nodes, m)|
  {
    ColumnHolds(lanes, nodes, m);
    hide ColumnNodes, OwnNodes;
  }

  lemma {:induction false} ColumnsHold(lanes: seq<Box>, nodes: seq<Box>, m: nat)
    requires lanes != [] && m <= |lanes| && NoSharedColumn(lanes, nodes)
    ensures multiset(InColumns(lanes, nodes, m)) == multiset(FirstNodes(lanes, nodes, m))
  {
    if m == 0 {
      NoneGoesToNone(lanes, nodes);
    } else {
      var k := m - 1;
      assert IsRepeated(lanes, k) ==> IsEmptyColumn(lanes, nodes, k);
      assert IsEmptyColumn(lanes, nodes, k) ==> OwnNodes(lanes, nodes, k) == [];
      ColumnsHold(lanes, nodes, k);
      ColumnsGrow(lanes, nodes, k);
      FirstStep(lanes, nodes, k);
    }
    hide *;
  }

  ghost predicate IsShared(lanes: seq<Box>, nodes: seq<Box>, l: nat)
    requires l < |lanes|
  {
    IsRepeated(lanes, l) && !IsEmptyColumn(lanes, nodes, l)
  }

  lemma {:induction false} SharedColumnsHoldMore(lanes: seq<Box>, nodes: seq<Box>, m: nat)
    requires lanes != [] && m <= |lanes|
    ensures |InColumns(lanes, nodes, m)| >= |FirstNodes(lanes, nodes, m)|
    ensures forall l :: 0 <= l < m && IsShared(lanes, nodes, l) ==>
      |InColumns(lanes, nodes, m)| > |FirstNodes(lanes, nodes, m)|
  {
    if m == 0 {
      NoneGoesToNone(lanes, nodes);
    } else {
      var k := m - 1;
      assert IsShared(lanes, nodes, k) ==> IsRepeated(lanes, k) && OwnNodes(lanes, nodes, k) != [];
      SharedColumnsHoldMore(lanes, nodes, k);
      ColumnsGrow(lanes, nodes, k);
      FirstStepSizes(lanes, nodes, k);
    }
    hide *;
  }

  lemma FirstStepSizes(lanes: seq<Box>, nodes: seq<Box>, m: nat)
    requires m < |lanes|
    ensures |FirstNodes(lanes, nodes, m + 1)|
         == |FirstNodes(lanes, nodes, m)| + if IsRepeated(lanes, m) then 0 else |OwnNodes(lanes, nodes, m)|
  {
    FirstStep(lanes, nodes, m);
    if !IsRepeated(lanes, m) {
      SizesOfRearranged(FirstNodes(lanes, nodes, m + 1), FirstNodes(lanes, nodes, m), OwnNodes(lanes, nodes, m));
    }
    hide *;
  }

  /** Every node goes to a lane or is too wide for all of them. */
  lemma NodesGoSomewhere(lanes: seq<Box>, nodes: seq<Box>)
    requires lanes != []
    ensures multiset(nodes) == multiset(FirstNodes(lanes, nodes, |lanes|)) + multiset(SpanningNodes(lanes, nodes))
    ensures |nodes| == |FirstNodes(lanes, nodes, |lanes|)| + |SpanningNodes(lanes, nodes)|
  {
    var p, q := GoesToFirst(lanes, |lanes|), Spans(lanes);
    var r := (node: Box) => true;
    forall i | 0 <= i < |nodes| ensures (r(nodes[i]) <==> p(nodes[i]) || q(nodes[i])) && !(p(nodes[i]) && q(nodes[i])) {
      LaneForIsRight(lanes, nodes[i]);
      var k :| 0 <= k < |lanes| && lanes[k] == LaneFor(lanes, nodes[i]);
    }
    FilterSplits(nodes, p, q, r);
    FilterAll(nodes, r);
    SortKeepsElements(Filter(nodes, q), HigherFirst);
    hide Filter, Spans, GoesToFirst;
    SizesOfRearranged(nodes, Filter(nodes, p), SpanningNodes(lanes, nodes));
  }

  ghost predicate AreNodes(nodes: seq<Box>) {
    forall i :: 0 <= i < |nodes| ==> !nodes[i].face.lane
  }

  lemma StackFaces(s: seq<Box>, nodes: seq<Box>, frame: Frame, top: real, gap: real, bottom: real)
    requires IsStack(s, nodes, frame, top, gap, bottom) && AreNodes(nodes)
    ensures Faces(s) == Faces(nodes)
  {
    hide LeftIn, WidthIn;
  }

  lemma ChosenAreNodes(nodes: seq<Box>, p: Box -> bool)
    requires AreNodes(nodes)
    ensures AreNodes(SortBy(Filter(nodes, p), HigherFirst))
  {
    var chosen := SortBy(Filter(nodes, p), HigherFirst);
    FilterIn(nodes, p);
    SortKeepsElements(Filter(nodes, p), HigherFirst);
    hide SortBy, Filter, HigherFirst;
    forall i | 0 <= i < |chosen| ensures !chosen[i].face.lane {
      assert chosen[i] in multiset(chosen);
      assert chosen[i] in Filter(nodes, p);
    }
  }

  lemma {:induction false} ColumnFaces(lanes: seq<Box>, nodes: seq<Box>, m: nat, heights: Heights)
    requires m <= |lanes| && AreNodes(nodes) && AreTall(heights)
    ensures Faces(Columns(lanes, nodes, m, heights)) == Faces(InColumns(lanes, nodes, m))
  {
    if m > 0 {
      var k := m - 1;
      ColumnFaces(lanes, nodes, k, heights);
      var column, frame := ColumnNodes(lanes, nodes, k), ColumnFrame(lanes, k);
      StackIsStack(column, frame, MARGIN + PADDING_Y, NODE_GAP, heights);
      ChosenAreNodes(nodes, GoesTo(lanes, lanes[k].face.id));
      StackFaces(ColumnOf(lanes, nodes, k, heights), column, frame, MARGIN + PADDING_Y, NODE_GAP,
                 Below(column, frame, MARGIN + PADDING_Y, NODE_GAP, heights));
      hide Stack, Below, ColumnNodes, Faces, IsStack, AreTall, AreNodes;
      FacesConcat(Columns(lanes, nodes, k, heights), ColumnOf(lanes, nodes, k, heights));
      FacesConcat(InColumns(lanes, nodes, k), column);
    }
  }

  lemma NewNodeFaces(lanes: seq<Box>, nodes: seq<Box>, heights: Heights)
    requires lanes != [] && AreNodes(nodes) && AreTall(heights)
    ensures Faces(NewNodes(lanes, nodes, heights))
         == Faces(InColumns(lanes, nodes, |lanes|) + SpanningNodes(lanes, nodes))
  {
    var wide, frame := SpanningNodes(lanes, nodes), Middle(PageWidth(lanes) as real);
    var top := SpanningTop(lanes, nodes, heights);
    ColumnFaces(lanes, nodes, |lanes|, heights);
    StackIsStack(wide, frame, top, SPANNING_GAP, heights);
    ChosenAreNodes(nodes, Spans(lanes));
    StackFaces(SpanningStack(lanes, nodes, heights), wide, frame, top, SPANNING_GAP,
               SpanningEnd(lanes, nodes, heights));
    hide Stack, Below, Faces, IsStack, AreTall, AreNodes, Columns, InColumns, SpanningNodes;
    FacesConcat(Columns(lanes, nodes, |lanes|, heights), SpanningStack(lanes, nodes, heights));
    FacesConcat(InColumns(lanes, nodes, |lanes|), wide);
  }

  /** The nodes' boxes are rearranged exactly when no lane with nodes shares its id. */
  lemma NodesOnceIff(lanes: seq<Box>, nodes: seq<Box>, heights: Heights)
    requires lanes != [] && AreNodes(nodes) && AreTall(heights)
    ensures NoSharedColumn(lanes, nodes) ==>
      multiset(Faces(NewNodes(lanes, nodes, heights))) == multiset(Faces(nodes))
    ensures !NoSharedColumn(lanes, nodes) ==> |NewNodes(lanes, nodes, heights)| > |nodes|
  {
    var placed := InColumns(lanes, nodes, |lanes|) + SpanningNodes(lanes, nodes);
    NewNodeFaces(lanes, nodes, heights);
    NodesGoSomewhere(lanes, nodes);
    assert |Faces(NewNodes(lanes, nodes, heights))| == |Faces(placed)|;
    hide InColumns, SpanningNodes, NewNodes, FirstNodes, IsEmptyColumn, AreTall;
    if NoSharedColumn(lanes, nodes) {
      ColumnsHold(lanes, nodes, |lanes|);
      RearrangedFaces(placed, nodes);
    } else {
      var k, l :| 0 <= k < l < |lanes| && lanes[k].face.id == lanes[l].face.id && !IsEmptyColumn(lanes, nodes, l);
      assert IsShared(lanes, nodes, l);
      SharedColumnsHoldMore(lanes, nodes, |lanes|);
    }
  }

  lemma BoxesAreLanesAndNodes(boxes: seq<Box>)
    ensures multiset(Lanes(boxes) + Filter(boxes, IsNode())) == multiset(boxes)
    ensures Faces(LaneBoxes(Lanes(boxes), 0.0)) == Faces(Lanes(boxes))
    ensures AreNodes(Filter(boxes, IsNode()))
  {
    FilterSplits(boxes, IsLane(), IsNode(), (b: Box) => true);
    FilterAll(boxes, (b: Box) => true);
    SortKeepsElements(Filter(boxes, IsLane()), LeftFirst);
    FilterChooses(boxes, IsNode());
    LanesAreLanes(boxes);
    hide Filter, SortBy;
  }

  lemma {:induction false} FilterChooses<T>(s: seq<T>, p: T -> bool)
    ensures forall i :: 0 <= i < |Filter(s, p)| ==> p(Filter(s, p)[i])
    decreases |s|
  {
    if s != [] {
      FilterChooses(s[..|s| - 1], p);
    }
  }

  lemma LanesAreLanes(boxes: seq<Box>)
    ensures forall i :: 0 <= i < |Lanes(boxes)| ==> Lanes(boxes)[i].face.lane
  {
    SortKeepsElements(Filter(boxes, IsLane()), LeftFirst);
    FilterIn(boxes, IsLane());
    hide Filter, SortBy;
    var lanes := Lanes(boxes);
    forall i | 0 <= i < |lanes| ensures lanes[i].face.lane {
      assert lanes[i] in multiset(lanes);
      assert lanes[i] in Filter(boxes, IsLane());
    }
  }

  /** A page without lanes is all nodes, in the page's order. */
  lemma NoLanesAllNodes(boxes: seq<Box>)
    requires Lanes(boxes) == []
    ensures Filter(boxes, IsNode()) == boxes && AreNodes(boxes)
  {
    BoxesAreLanesAndNodes(boxes);
    hide Lanes, Filter;
    assert [] + Filter(boxes, IsNode()) == Filter(boxes, IsNode());
    forall i | 0 <= i < |boxes| ensures IsNode()(boxes[i]) {
      assert boxes[i] in multiset(Filter(boxes, IsNode()));
    }
    FilterAll(boxes, IsNode());
  }

  lemma LaneFaces(lanes: seq<Box>, height: real)
    ensures Faces(LaneBoxes(lanes, height)) == Faces(LaneBoxes(lanes, 0.0))
  {
  }

  /** Every box of the page appears once on the new page exactly when no node
      goes to a lane that shares its id with another lane. */
  lemma EveryBoxOnceIff(page: Page, heights: Heights)
    requires Lanes(page.boxes) != [] && AreTall(heights)
    ensures var lanes, nodes := Lanes(page.boxes), Filter(page.boxes, IsNode());
      multiset(Faces(Relaid(page, heights).boxes)) == multiset(Faces(page.boxes)) <==> NoSharedColumn(lanes, nodes)
  {
    var lanes, nodes := Lanes(page.boxes), Filter(page.boxes, IsNode());
    var height, news := LaneHeight(lanes, nodes, heights), NewNodes(lanes, nodes, heights);
    assert Relaid(page, heights).boxes == LaneBoxes(lanes, height) + news;
    BoxesAreLanesAndNodes(page.boxes);
    LaneFaces(lanes, height);
    NodesOnceIff(lanes, nodes, heights);
    RearrangedFaces(lanes + nodes, page.boxes);
    SizesOfRearranged(page.boxes, lanes, nodes);
    assert |multiset(Faces(LaneBoxes(lanes, height) + news))| == |lanes| + |news|;
    assert |multiset(Faces(page.boxes))| == |page.boxes|;
    FacesConcat(LaneBoxes(lanes, height), news);
    FacesConcat(lanes, nodes);
    hide *;
  }

  ghost predicate IdsDiffer(lanes: seq<Box>) {
    forall k, l :: 0 <= k < l < |lanes| ==> lanes[k].face.id != lanes[l].face.id
  }

  /** In particular where no two lanes share an id. */
  lemma DistinctIdsKeepAll(page: Page, heights: Heights)
    requires Lanes(page.boxes) != [] && AreTall(heights) && IdsDiffer(Lanes(page.boxes))
    ensures multiset(Faces(Relaid(page, heights).boxes)) == multiset(Faces(page.boxes))
  {
    EveryBoxOnceIff(page, heights);
    hide Relaid, Lanes, Filter, IsEmptyColumn, AreTall;
  }

  function SharedIdPage(): Page {
    Page("", 1, "", 500, 500,
      [Box(Face("lane", "", map[], true), Rect(0.0, 0.0, 100.0, 400.0)),
       Box(Face("lane", "", map[], true), Rect(200.0, 0.0, 100.0, 400.0)),
       Box(Face("node", "", map[], false), Rect(20.0, 20.0, 50.0, 50.0))], [])
  }

  lemma LanesOfSharedIdPage()
    ensures var boxes := SharedIdPage().boxes;
      && Filter(boxes, IsNode()) == [boxes[2]]
      && |Lanes(boxes)| == 2 && (forall k :: 0 <= k < 2 ==> Lanes(boxes)[k] in boxes[..2])
  {
    var boxes := SharedIdPage().boxes;
    assert boxes == (([] + [boxes[0]]) + [boxes[1]]) + [boxes[2]];
    FilterAppend([], boxes[0], IsLane());
    FilterAppend([] + [boxes[0]], boxes[1], IsLane());
    FilterAppend(([] + [boxes[0]]) + [boxes[1]], boxes[2], IsLane());
    FilterAppend([], boxes[0], IsNode());
    FilterAppend([] + [boxes[0]], boxes[1], IsNode());
    FilterAppend(([] + [boxes[0]]) + [boxes[1]], boxes[2], IsNode());
    assert Filter([], IsLane()) == [] && Filter([], IsNode()) == [];
    hide Filter;
    var chosen := Filter(boxes, IsLane());
    assert chosen == boxes[..2];
    SortKeepsElements(chosen, LeftFirst);
    hide SortBy;
    forall k | 0 <= k < 2 ensures Lanes(boxes)[k] in boxes[..2] {
      assert Lanes(boxes)[k] in multiset(Lanes(boxes));
    }
  }

  lemma HoldsItsOwn(lanes: seq<Box>, node: Box, k: nat)
    requires k < |lanes| && !Spans(lanes)(node) && LaneFor(lanes, node).face.id == lanes[k].face.id
    ensures !IsEmptyColumn(lanes, [node], k)
  {
    FilterAppend([], node, GoesTo(lanes, lanes[k].face.id));
    hide LaneFor, Spans, Filter;
    assert [] + [node] == [node];
  }

  lemma OneIdIsShared(lanes: seq<Box>, node: Box)
    requires |lanes| == 2 && lanes[0].face.id == lanes[1].face.id && !Spans(lanes)(node)
    ensures !NoSharedColumn(lanes, [node])
  {
    LaneForIsRight(lanes, node);
    hide *;
    assert lanes == [lanes[0], lanes[1]];
    HoldsItsOwn(lanes, node, 1);
    SharedMeansNot(lanes, [node], 0, 1);
  }

  lemma SharedMeansNot(lanes: seq<Box>, nodes: seq<Box>, k: nat, l: nat)
    requires k < l < |lanes| && lanes[k].face.id == lanes[l].face.id && !IsEmptyColumn(lanes, nodes, l)
    ensures !NoSharedColumn(lanes, nodes)
  {
  }

  lemma NarrowNodeDoesNotSpan(lanes: seq<Box>, node: Box)
    requires lanes != [] && lanes[0].at.w >= node.at.w >= 0.0
    ensures !Spans(lanes)(node)
  {
  }

  /** For instance two lanes with one id and a node in the first of them. */
  lemma SharedIdShowsTwice(heights: Heights)
    requires AreTall(heights)
    ensures var page := SharedIdPage();
      && Lanes(page.boxes) != []
      && multiset(Faces(Relaid(page, heights).boxes)) != multiset(Faces(page.boxes))
  {
    var page := SharedIdPage();
    var lanes, node := Lanes(page.boxes), page.boxes[2];
    LanesOfSharedIdPage();
    hide Lanes, Filter, AreTall;
    assert forall b :: b in page.boxes[..2] ==> b.face.id == "lane" && b.at.w == 100.0;
    assert lanes[0] in page.boxes[..2] && lanes[1] in page.boxes[..2];
    hide Relaid;
    NarrowNodeDoesNotSpan(lanes, node);
    OneIdIsShared(lanes, node);
    EveryBoxOnceIff(page, heights);
    hide *;
  }

  /** Wherever a lane is, the wide nodes are below it. */
  lemma SpanningIsBelowLanes(page: Page, heights: Heights, k: nat)
    requires AreTall(heights) && k < |Lanes(page.boxes)|
    ensures var lanes, boxes := Lanes(page.boxes), Relaid(page, heights).boxes;
      && boxes[k].face == lanes[k].face.(lane := true)
      && forall b :: b in SpanningStack(lanes, Filter(page.boxes, IsNode()), heights) ==>
           b in boxes && b.at.y >= boxes[k].at.y + boxes[k].at.h + 42.0
  {
    var lanes, nodes := Lanes(page.boxes), Filter(page.boxes, IsNode());
    SpanningStaysBelow(lanes, nodes, heights);
    hide Columns, LaneHeight, SpanningStack, AreTall, Apart, LaneLeft, PageWidth, PageHeight;
    var wide := SpanningStack(lanes, nodes, heights);
    forall b | b in wide ensures b.at.y >= SpanningTop(lanes, nodes, heights) {
      var i :| 0 <= i < |wide| && wide[i] == b;
      assert Inside(wide[i].at, SpanningRect(lanes, nodes, heights));
    }
  }

  /** No two lanes overlap. */
  lemma LanesDoNotOverlap(page: Page, heights: Heights, k: nat, l: nat)
    requires k < l < |Lanes(page.boxes)|
    ensures var boxes := Relaid(page, heights).boxes; Apart(boxes[k].at, boxes[l].at)
  {
    var lanes, nodes := Lanes(page.boxes), Filter(page.boxes, IsNode());
    LanesAreApart(lanes, k, l, LaneHeight(lanes, nodes, heights));
    hide LaneHeight, NewNodes, Apart, LaneLeft, PageWidth, PageHeight, Lanes, Filter;
  }

  /** Within a lane the boxes stand in the order of their old places. */
  lemma ColumnKeepsOrder(lanes: seq<Box>, nodes: seq<Box>, k: nat, heights: Heights, i: nat, j: nat)
    requires k < |lanes| && AreTall(heights) && i < j < |ColumnOf(lanes, nodes, k, heights)|
    ensures |ColumnNodes(lanes, nodes, k)| == |ColumnOf(lanes, nodes, k, heights)|
    ensures HigherFirst(ColumnNodes(lanes, nodes, k)[i], ColumnNodes(lanes, nodes, k)[j])
    ensures var c := ColumnOf(lanes, nodes, k, heights);
      && c[i].face == ColumnNodes(lanes, nodes, k)[i].face.(lane := false)
      && c[i].at.y + c[i].at.h + NODE_GAP <= c[j].at.y
  {
    var column := ColumnNodes(lanes, nodes, k);
    StackIsStack(column, ColumnFrame(lanes, k), MARGIN + PADDING_Y, NODE_GAP, heights);
    HigherFirstIsOrder();
    SortSorts(OwnNodes(lanes, nodes, k), HigherFirst);
    hide Stack, Below, SortBy, Filter, IsOrder, HigherFirst, LeftIn, WidthIn, AreTall;
  }
}
