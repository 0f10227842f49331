/** Laying out a page, step by step. */
module DiagramLayout {
  import opened Sorting
  import opened DiagramPages
  import opened LaneLayout
  import opened LaneTheorems
  import FreeformLayout
  import opened Reals

  /** The lists of nodes by lane id are what of `nodes` goes to each id. */
  ghost predicate AreSortedOut(m: map<string, seq<Box>>, lanes: seq<Box>, nodes: seq<Box>)
    requires lanes != []
  {
    forall k :: 0 <= k < |lanes| ==> lanes[k].face.id in m && m[lanes[k].face.id] == OwnNodes(lanes, nodes, k)
  }

  lemma OwnStep(lanes: seq<Box>, nodes: seq<Box>, node: Box, k: nat)
    requires k < |lanes|
    ensures OwnNodes(lanes, nodes + [node], k)
         == if !Spans(lanes)(node) && LaneFor(lanes, node).face.id == lanes[k].face.id
            then OwnNodes(lanes, nodes, k) + [node] else OwnNodes(lanes, nodes, k)
  {
    FilterAppend(nodes, node, GoesTo(lanes, lanes[k].face.id));
    hide LaneFor, Filter, Spans;
  }

  lemma KnowsItsLane(m: map<string, seq<Box>>, lanes: seq<Box>, nodes: seq<Box>, node: Box)
    requires lanes != [] && AreSortedOut(m, lanes, nodes)
    ensures LaneFor(lanes, node).face.id in m
  {
    LaneForIsRight(lanes, node);
    hide LaneFor, OwnNodes;
    var k :| 0 <= k < |lanes| && lanes[k] == LaneFor(lanes, node);
    assert lanes[k].face.id in m;
  }

  lemma SpanningStep(m: map<string, seq<Box>>, lanes: seq<Box>, nodes: seq<Box>, node: Box)
    requires lanes != [] && AreSortedOut(m, lanes, nodes) && Spans(lanes)(node)
    ensures AreSortedOut(m, lanes, nodes + [node])
  {
    forall k | 0 <= k < |lanes| ensures OwnNodes(lanes, nodes + [node], k) == OwnNodes(lanes, nodes, k) {
      OwnStep(lanes, nodes, node, k);
    }
    hide OwnNodes, Spans;
  }

  lemma SortedOutStep(m: map<string, seq<Box>>, lanes: seq<Box>, nodes: seq<Box>, node: Box, id: string)
    requires lanes != [] && AreSortedOut(m, lanes, nodes) && !Spans(lanes)(node)
    requires id in m && id == LaneFor(lanes, node).face.id
    ensures AreSortedOut(m[id := m[id] + [node]], lanes, nodes + [node])
  {
    var updated := m[id := m[id] + [node]];
    forall k | 0 <= k < |lanes|
      ensures lanes[k].face.id in updated && updated[lanes[k].face.id] == OwnNodes(lanes, nodes + [node], k)
    {
      OwnStep(lanes, nodes, node, k);
      hide OwnNodes, Spans, LaneFor;
    }
    hide OwnNodes, Spans, LaneFor;
  }

  lemma NothingSortedOut(m: map<string, seq<Box>>, lanes: seq<Box>)
    requires lanes != [] && forall k :: 0 <= k < |lanes| ==> lanes[k].face.id in m && m[lanes[k].face.id] == []
    ensures AreSortedOut(m, lanes, [])
  {
  }

  lemma SpansMeans(lanes: seq<Box>, node: Box)
    requires lanes != []
    ensures Spans(lanes)(node) <==> node.at.w > WidestLane(lanes) * 1.35
  {
  }

  method SortOut(lanes: seq<Box>, nodes: seq<Box>)
      returns (laneNodes: map<string, seq<Box>>, spanning: seq<Box>)
    requires lanes != []
    ensures AreSortedOut(laneNodes, lanes, nodes)
    ensures spanning == Filter(nodes, Spans(lanes))
  {
    laneNodes := map lane | lane in lanes :: lane.face.id := [];
    spanning := [];
    assert nodes[..0] == [] && nodes[..|nodes|] == nodes;
    NothingSortedOut(laneNodes, lanes);
    for i := 0 to |nodes|
      invariant AreSortedOut(laneNodes, lanes, nodes[..i])
      invariant spanning == Filter(nodes[..i], Spans(lanes))
    {
      hide AreSortedOut, Filter, LaneFor, Spans, WidestLane;
      var node := nodes[i];
      assert nodes[..i + 1] == nodes[..i] + [node];
      FilterAppend(nodes[..i], node, Spans(lanes));
      SpansMeans(lanes, node);
      if node.at.w > WidestLane(lanes) * 1.35 {
        SpanningStep(laneNodes, lanes, nodes[..i], node);
        spanning := spanning + [node];
        continue;
      }
      var lane := LaneFor(lanes, node);
      KnowsItsLane(laneNodes, lanes, nodes[..i], node);
      SortedOutStep(laneNodes, lanes, nodes[..i], node, lane.face.id);
      laneNodes := laneNodes[lane.face.id := laneNodes[lane.face.id] + [node]];
    }
    hide *;
  }

  /** Places `nodes` below each other. */
  method PlaceStack(nodes: seq<Box>, frame: Frame, top: real, gap: real, heights: Heights)
      returns (placed: seq<Box>, cursor: real)
    ensures placed == Stack(nodes, frame, top, gap, heights)
    ensures cursor == Below(nodes, frame, top, gap, heights)
  {
    placed, cursor := [], top;
    assert nodes[..0] == [] && nodes[..|nodes|] == nodes;
    for i := 0 to |nodes|
      invariant placed == Stack(nodes[..i], frame, top, gap, heights)
      invariant cursor == Below(nodes[..i], frame, top, gap, heights)
    {
      StackStep(nodes, i, frame, top, gap, heights);
      hide Stack, Below, WidthIn, LeftIn;
      var w := WidthIn(frame, nodes[i]);
      var h := heights(nodes[i].face.text, w, LABEL_SIZE);
      placed := placed
        + [Box(nodes[i].face.(lane := false), Rect(LeftIn(frame, nodes[i]), cursor, w, h))];
      cursor := cursor + (h + gap);
    }
    hide *;
  }

  method PlaceColumns(lanes: seq<Box>, nodes: seq<Box>, laneNodes: map<string, seq<Box>>, heights: Heights)
      returns (newNodes: seq<Box>, lowest: real)
    requires lanes != [] && AreSortedOut(laneNodes, lanes, nodes)
    ensures newNodes == Columns(lanes, nodes, |lanes|, heights)
    ensures lowest == LowestEnd(lanes, nodes, |lanes|, heights)
  {
    newNodes, lowest := [], 0.0;
    for k := 0 to |lanes|
      invariant newNodes == Columns(lanes, nodes, k, heights)
      invariant k > 0 ==> lowest == LowestEnd(lanes, nodes, k, heights)
    {
      var sorted := SortBy(laneNodes[lanes[k].face.id], HigherFirst);
      assert sorted == ColumnNodes(lanes, nodes, k);
      hide AreSortedOut, Stack, Below, ColumnNodes, Max, LaneLeft, ColumnWidth;
      var column, cursor := PlaceStack(sorted, ColumnFrame(lanes, k), MARGIN + PADDING_Y, NODE_GAP, heights);
      newNodes := newNodes + column;
      var bottom := cursor + PADDING_Y / 2.0;
      lowest := if k == 0 then bottom else Max(lowest, bottom);
    }
  }

  function Sheet(page: Page): Rect {
    Rect(0.0, 0.0, page.width as real, page.height as real)
  }

  /** The pages show the same boxes, each as often. */
  ghost predicate SameBoxes(p: Page, q: Page) {
    multiset(Faces(p.boxes)) == multiset(Faces(q.boxes))
  }

  lemma RelaidIsSound(page: Page, heights: Heights)
    requires Lanes(page.boxes) != []
    ensures AreTall(heights) ==>
      var r := Relaid(page, heights);
      && AllApart(r.boxes[|Lanes(page.boxes)|..]) && AllInside(r.boxes, Sheet(r))
      && (SameBoxes(r, page) <==> NoSharedColumn(Lanes(page.boxes), Filter(page.boxes, IsNode())))
  {
    if AreTall(heights) {
      var lanes, nodes := Lanes(page.boxes), Filter(page.boxes, IsNode());
      EverythingIsOnThePage(page, heights);
      EveryBoxOnceIff(page, heights);
      NodesAreApart(lanes, nodes, heights);
      hide Lanes, Filter, NewNodes, LaneHeight, AllApart, AllInside, PageWidth, PageHeight, AreTall, NoSharedColumn, Faces;
      var r := Relaid(page, heights);
      assert r.boxes[|lanes|..] == NewNodes(lanes, nodes, heights);
    }
  }

  lemma FreeformIsSound(page: Page, nodes: seq<Box>, heights: Heights, numberOf: FreeformLayout.Numbers)
    ensures FreeformLayout.Freeform(page, nodes, heights, numberOf).edges == page.edges
    ensures nodes != [] ==>
      var r := FreeformLayout.Freeform(page, nodes, heights, numberOf);
      AllApart(r.boxes) && AllInside(r.boxes, Sheet(r))
  {
    if nodes != [] {
      var ordered := FreeformLayout.Ordered(nodes, numberOf);
      var r := FreeformLayout.Freeform(page, nodes, heights, numberOf);
      FreeformLayout.BoxesAreApart(ordered, heights);
      forall i | 0 <= i < |ordered| ensures Inside(r.boxes[i].at, Sheet(r)) {
        FreeformLayout.CellIsOnThePage(ordered, i, heights);
      }
      hide FreeformLayout.Ordered, AllApart, Inside;
    }
  }

  lemma FreeformKeepsBoxes(page: Page, heights: Heights, numberOf: FreeformLayout.Numbers)
    requires Lanes(page.boxes) == []
    ensures SameBoxes(FreeformLayout.Freeform(page, Filter(page.boxes, IsNode()), heights, numberOf), page)
  {
    NoLanesAllNodes(page.boxes);
    hide Lanes, Filter, FreeformLayout.Freeform, Faces;
    FreeformLayout.EveryBoxOnce(page, page.boxes, heights, numberOf);
  }

  /** The same boxes are shown, each once, on a page without lanes; and on one with
      lanes exactly when no node goes to a lane that shares its id. */
  method RelayoutPage(page: Page, heights: Heights, numberOf: FreeformLayout.Numbers) returns (r: Page)
    ensures Lanes(page.boxes) != [] ==> r == Relaid(page, heights)
    ensures Lanes(page.boxes) == [] ==>
      r == FreeformLayout.Freeform(page, Filter(page.boxes, IsNode()), heights, numberOf)
    ensures r.edges == page.edges
    ensures Lanes(page.boxes) != [] && AreTall(heights) ==>
      AllApart(r.boxes[|Lanes(page.boxes)|..]) && AllInside(r.boxes, Sheet(r))
    ensures Lanes(page.boxes) != [] && AreTall(heights) ==>
      (SameBoxes(r, page) <==> NoSharedColumn(Lanes(page.boxes), Filter(page.boxes, IsNode())))
    ensures Lanes(page.boxes) == [] ==> SameBoxes(r, page)
    ensures Lanes(page.boxes) == [] && Filter(page.boxes, IsNode()) != [] ==>
      AllApart(r.boxes) && AllInside(r.boxes, Sheet(r))
  {
    hide Filter, SortBy, FreeformLayout.Freeform, SameBoxes, NoSharedColumn, Columns, LowestEnd, SpanningNodes, Stack, Below, PageWidth;
    var lanes, nodes := Lanes(page.boxes), Filter(page.boxes, IsNode());
    if lanes == [] {
      r := FreeformLayout.RelayoutFreeformPage(page, nodes, heights, numberOf);
      FreeformIsSound(page, nodes, heights, numberOf);
      FreeformKeepsBoxes(page, heights, numberOf);
      return;
    }
    var laneNodes, spanning := SortOut(lanes, nodes);
    var columns, lowest := PlaceColumns(lanes, nodes, laneNodes, heights);
    var height := lowest - MARGIN;
    var width := PageWidth(lanes);
    assert SortBy(spanning, HigherFirst) == SpanningNodes(lanes, nodes) by { DefSpanning(lanes, nodes); }
    var wide, cursor := PlaceStack(SortBy(spanning, HigherFirst), Middle(width as real),
                                   MARGIN + height + 42.0, SPANNING_GAP, heights);
    r := page.(width := width, height := Ceil(Max(cursor + MARGIN, MARGIN + height + MARGIN)),
      boxes := LaneBoxes(lanes, height) + (columns + wide));
    assert r == Relaid(page, heights);
    RelaidIsSound(page, heights);
  }

  lemma DefSpanning(lanes: seq<Box>, nodes: seq<Box>)
    requires lanes != []
    ensures SpanningNodes(lanes, nodes) == SortBy(Filter(nodes, Spans(lanes)), HigherFirst)
  {
  }
}
