/** Pages with lanes: every node in the column of its lane, wide nodes below. */
module LaneLayout {
  import opened Sorting
  import opened DiagramPages
  import opened Reals

  const MARGIN := 42.0
  const GUTTER := 76.0
  const PADDING_X := 44.0
  const PADDING_Y := 82.0
  const NODE_GAP := 42.0
  const SPANNING_GAP := 34.0
  const LABEL_SIZE: nat := 16

  // ----- Which node goes where -----

  predicate LeftFirst(a: Box, b: Box) {
    a.at.x <= b.at.x
  }

  /** Top to bottom, then left to right, then by id. */
  predicate HigherFirst(a: Box, b: Box) {
    a.at.y < b.at.y || (a.at.y == b.at.y &&
      (a.at.x < b.at.x || (a.at.x == b.at.x && TextLeq(a.face.id, b.face.id))))
  }

  lemma HigherFirstIsOrder()
    ensures IsOrder(HigherFirst)
  {
    forall a, b ensures HigherFirst(a, b) || HigherFirst(b, a) {
      TextOrder(a.face.id, b.face.id, "");
    }
    forall a, b, c | HigherFirst(a, b) && HigherFirst(b, c) ensures HigherFirst(a, c) {
      TextOrder(a.face.id, b.face.id, c.face.id);
    }
  }

  function Lanes(boxes: seq<Box>): seq<Box> {
    SortBy(Filter(boxes, IsLane()), LeftFirst)
  }

  function WidestLane(lanes: seq<Box>): (w: real)
    requires lanes != []
    ensures forall i :: 0 <= i < |lanes| ==> lanes[i].at.w <= w
    ensures exists i :: 0 <= i < |lanes| && lanes[i].at.w == w
    decreases |lanes|
  {
    var last := lanes[|lanes| - 1];
    if |lanes| == 1 then last.at.w else Max(WidestLane(lanes[..|lanes| - 1]), last.at.w)
  }

  function Spans(lanes: seq<Box>): Box -> bool
    requires lanes != []
  {
    (node: Box) => node.at.w > WidestLane(lanes) * 1.35
  }

  function CenterX(b: Box): real {
    b.at.x + b.at.w / 2.0
  }

  function CenterY(b: Box): real {
    b.at.y + b.at.h / 2.0
  }

  predicate HoldsCenter(lane: Box, node: Box) {
    lane.at.x <= CenterX(node) <= lane.at.x + lane.at.w && lane.at.y <= CenterY(node) <= lane.at.y + lane.at.h
  }

  function Containing(node: Box): Box -> bool {
    (lane: Box) => HoldsCenter(lane, node)
  }

  function Distance(lane: Box, node: Box): real {
    Abs(CenterX(lane) - CenterX(node))
  }

  function Distances(lanes: seq<Box>, node: Box): (s: seq<real>)
    ensures |s| == |lanes| && forall i :: 0 <= i < |lanes| ==> s[i] == Distance(lanes[i], node)
  {
    seq(|lanes|, i requires 0 <= i < |lanes| => Distance(lanes[i], node))
  }

  function FirstSmallest(s: seq<real>): (k: nat)
    requires s != []
    ensures k < |s|
    ensures forall i :: 0 <= i < |s| ==> s[k] <= s[i]
    ensures forall i :: 0 <= i < k ==> s[k] < s[i]
    decreases |s|
  {
    var n := |s| - 1;
    if n == 0 then 0
    else
      var k := FirstSmallest(s[..n]);
      if s[n] < s[k] then n else k
  }

  /** A lane that holds the node's centre, or else the first of the lanes whose
      middle is nearest to the node's. */
  function LaneFor(lanes: seq<Box>, node: Box): (lane: Box)
    requires lanes != []
  {
    var containing := Filter(lanes, Containing(node));
    if containing != [] then containing[0] else lanes[FirstSmallest(Distances(lanes, node))]
  }

  /** A node goes to a lane that holds its centre, if there is one. */
  lemma LaneForIsRight(lanes: seq<Box>, node: Box)
    requires lanes != []
    ensures LaneFor(lanes, node) in lanes
    ensures (exists i :: 0 <= i < |lanes| && HoldsCenter(lanes[i], node)) ==> HoldsCenter(LaneFor(lanes, node), node)
    ensures HoldsCenter(LaneFor(lanes, node), node)
      || forall i :: 0 <= i < |lanes| ==> Distance(LaneFor(lanes, node), node) <= Distance(lanes[i], node)
  {
    FilterIn(lanes, Containing(node));
    hide HoldsCenter, Distance, Filter;
    var containing := Filter(lanes, Containing(node));
    forall i | 0 <= i < |lanes| && HoldsCenter(lanes[i], node) ensures lanes[i] in containing {
      assert Containing(node)(lanes[i]);
    }
    if containing != [] {
      assert containing[0] in containing;
      assert Containing(node)(containing[0]);
    } else {
      assert LaneFor(lanes, node) == lanes[FirstSmallest(Distances(lanes, node))];
    }
  }

  function GoesTo(lanes: seq<Box>, id: string): Box -> bool
    requires lanes != []
  {
    (node: Box) => !Spans(lanes)(node) && LaneFor(lanes, node).face.id == id
  }

  /** The nodes in the column of the k-th lane. */
  function ColumnNodes(lanes: seq<Box>, nodes: seq<Box>, k: nat): seq<Box>
    requires k < |lanes|
  {
    SortBy(Filter(nodes, GoesTo(lanes, lanes[k].face.id)), HigherFirst)
  }

  function SpanningNodes(lanes: seq<Box>, nodes: seq<Box>): seq<Box>
    requires lanes != []
  {
    SortBy(Filter(nodes, Spans(lanes)), HigherFirst)
  }

  // ----- Stacks of boxes -----

  /** A column of fixed width, or the middle of a page. */
  datatype Frame = Column(left: real, width: real) | Middle(pageWidth: real)

  function WidthIn(frame: Frame, node: Box): real {
    match frame
    case Column(_, width) => width
    case Middle(pageWidth) => Min(pageWidth - MARGIN * 2.0 - 120.0, Max(780.0, node.at.w))
  }

  function LeftIn(frame: Frame, node: Box): real {
    match frame
    case Column(left, _) => left
    case Middle(pageWidth) => (pageWidth - WidthIn(frame, node)) / 2.0
  }

  function Placed(node: Box, frame: Frame, y: real, heights: Heights): Box {
    var w := WidthIn(frame, node);
    Box(node.face.(lane := false), Rect(LeftIn(frame, node), y, w, heights(node.face.text, w, LABEL_SIZE)))
  }

  /** Where the next box would start. */
  function Below(nodes: seq<Box>, frame: Frame, top: real, gap: real, heights: Heights): real
    decreases |nodes|
  {
    if nodes == [] then top
    else
      var n := |nodes| - 1;
      var y := Below(nodes[..n], frame, top, gap, heights);
      y + (heights(nodes[n].face.text, WidthIn(frame, nodes[n]), LABEL_SIZE) + gap)
  }

  function Stack(nodes: seq<Box>, frame: Frame, top: real, gap: real, heights: Heights): seq<Box>
    decreases |nodes|
  {
    if nodes == [] then []
    else
      var n := |nodes| - 1;
      Stack(nodes[..n], frame, top, gap, heights)
        + [Placed(nodes[n], frame, Below(nodes[..n], frame, top, gap, heights), heights)]
  }

  lemma StackStep(nodes: seq<Box>, i: nat, frame: Frame, top: real, gap: real, heights: Heights)
    requires i < |nodes|
    ensures var y := Below(nodes[..i], frame, top, gap, heights);
      var h := heights(nodes[i].face.text, WidthIn(frame, nodes[i]), LABEL_SIZE);
      && Below(nodes[..i + 1], frame, top, gap, heights) == y + (h + gap)
      && Stack(nodes[..i + 1], frame, top, gap, heights)
         == Stack(nodes[..i], frame, top, gap, heights) + [Placed(nodes[i], frame, y, heights)]
  {
    assert nodes[..i + 1][..i] == nodes[..i];
    hide WidthIn;
  }

  /** `s` is `nodes` in order, from `top` downwards, with `gap` between boxes and above `bottom`. */
  ghost predicate IsStack(s: seq<Box>, nodes: seq<Box>, frame: Frame, top: real, gap: real, bottom: real) {
    && |s| == |nodes| && top <= bottom
    && (forall i :: 0 <= i < |s| ==>
        && s[i].face == nodes[i].face.(lane := false)
        && s[i].at.x == LeftIn(frame, nodes[i]) && s[i].at.w == WidthIn(frame, nodes[i])
        && s[i].at.h >= 74.0 && top <= s[i].at.y && s[i].at.y + s[i].at.h + gap <= bottom)
    && forall i, j :: 0 <= i < j < |s| ==> s[i].at.y + s[i].at.h + gap <= s[j].at.y
  }

  lemma StackGrows(s: seq<Box>, nodes: seq<Box>, frame: Frame, top: real, gap: real, bottom: real, node: Box, b: Box)
    requires IsStack(s, nodes, frame, top, gap, bottom) && gap > 0.0
    requires b.face == node.face.(lane := false) && b.at.x == LeftIn(frame, node) && b.at.w == WidthIn(frame, node)
    requires b.at.y == bottom && b.at.h >= 74.0
    ensures IsStack(s + [b], nodes + [node], frame, top, gap, bottom + (b.at.h + gap))
  {
    hide LeftIn, WidthIn;
  }

  lemma FitAppend(s: seq<Box>, b: Box, heights: Heights, size: nat)
    requires LabelsFit(s, heights, size) && b.at.h >= heights(b.face.text, b.at.w, size)
    ensures LabelsFit(s + [b], heights, size)
  {
  }

  lemma {:induction false} StackIsStack(nodes: seq<Box>, frame: Frame, top: real, gap: real, heights: Heights)
    requires AreTall(heights) && gap > 0.0
    ensures IsStack(Stack(nodes, frame, top, gap, heights), nodes, frame, top, gap, Below(nodes, frame, top, gap, heights))
    ensures LabelsFit(Stack(nodes, frame, top, gap, heights), heights, LABEL_SIZE)
    decreases |nodes|
  {
    if nodes != [] {
      var n := |nodes| - 1;
      var front, node := nodes[..n], nodes[n];
      StackIsStack(front, frame, top, gap, heights);
      hide IsStack, LabelsFit, WidthIn, LeftIn;
      var bottom := Below(front, frame, top, gap, heights);
      var b := Placed(node, frame, bottom, heights);
      assert b.at.h >= 74.0;
      hide AreTall;
      StackGrows(Stack(front, frame, top, gap, heights), front, frame, top, gap, bottom, node, b);
      FitAppend(Stack(front, frame, top, gap, heights), b, heights, LABEL_SIZE);
      assert front + [node] == nodes;
    }
  }

  // ----- The page -----

  function ColumnWidth(lanes: seq<Box>): real {
    if |lanes| >= 4 then 430.0 else 460.0
  }

  function LaneLeft(lanes: seq<Box>, k: nat): real {
    MARGIN + k as real * (ColumnWidth(lanes) + GUTTER)
  }

  function ColumnFrame(lanes: seq<Box>, k: nat): Frame {
    Column(LaneLeft(lanes, k) + PADDING_X, ColumnWidth(lanes) - PADDING_X * 2.0)
  }

  function ColumnOf(lanes: seq<Box>, nodes: seq<Box>, k: nat, heights: Heights): seq<Box>
    requires k < |lanes|
  {
    Stack(ColumnNodes(lanes, nodes, k), ColumnFrame(lanes, k), MARGIN + PADDING_Y, NODE_GAP, heights)
  }

  function ColumnEnd(lanes: seq<Box>, nodes: seq<Box>, k: nat, heights: Heights): real
    requires k < |lanes|
  {
    Below(ColumnNodes(lanes, nodes, k), ColumnFrame(lanes, k), MARGIN + PADDING_Y, NODE_GAP, heights) + PADDING_Y / 2.0
  }

  /** The lowest end of the first `m` columns. */
  function LowestEnd(lanes: seq<Box>, nodes: seq<Box>, m: nat, heights: Heights): real
    requires 0 < m <= |lanes|
  {
    var last := ColumnEnd(lanes, nodes, m - 1, heights);
    if m == 1 then last else Max(LowestEnd(lanes, nodes, m - 1, heights), last)
  }

  /** The boxes of the first `m` columns. */
  function Columns(lanes: seq<Box>, nodes: seq<Box>, m: nat, heights: Heights): seq<Box>
    requires m <= |lanes|
  {
    if m == 0 then [] else Columns(lanes, nodes, m - 1, heights) + ColumnOf(lanes, nodes, m - 1, heights)
  }

  function LaneHeight(lanes: seq<Box>, nodes: seq<Box>, heights: Heights): real
    requires lanes != []
  {
    LowestEnd(lanes, nodes, |lanes|, heights) - MARGIN
  }

  function LaneRect(lanes: seq<Box>, k: nat, height: real): Rect {
    Rect(LaneLeft(lanes, k), MARGIN, ColumnWidth(lanes), height)
  }

  function LaneBoxes(lanes: seq<Box>, height: real): (s: seq<Box>)
    ensures |s| == |lanes|
    ensures forall k :: 0 <= k < |lanes| ==> s[k] == Box(lanes[k].face.(lane := true), LaneRect(lanes, k, height))
  {
    seq(|lanes|, k requires 0 <= k < |lanes| => Box(lanes[k].face.(lane := true), LaneRect(lanes, k, height)))
  }

  function PageWidth(lanes: seq<Box>): int {
    var n := |lanes|;
    Ceil(MARGIN * 2.0 + n as real * ColumnWidth(lanes) + (if n > 0 then n - 1 else 0) as real * GUTTER)
  }

  function SpanningTop(lanes: seq<Box>, nodes: seq<Box>, heights: Heights): real
    requires lanes != []
  {
    MARGIN + LaneHeight(lanes, nodes, heights) + 42.0
  }

  function SpanningStack(lanes: seq<Box>, nodes: seq<Box>, heights: Heights): seq<Box>
    requires lanes != []
  {
    Stack(SpanningNodes(lanes, nodes), Middle(PageWidth(lanes) as real),
          SpanningTop(lanes, nodes, heights), SPANNING_GAP, heights)
  }

  function SpanningEnd(lanes: seq<Box>, nodes: seq<Box>, heights: Heights): real
    requires lanes != []
  {
    Below(SpanningNodes(lanes, nodes), Middle(PageWidth(lanes) as real),
          SpanningTop(lanes, nodes, heights), SPANNING_GAP, heights)
  }

  function PageHeight(lanes: seq<Box>, nodes: seq<Box>, heights: Heights): int
    requires lanes != []
  {
    Ceil(Max(SpanningEnd(lanes, nodes, heights) + MARGIN, MARGIN + LaneHeight(lanes, nodes, heights) + MARGIN))
  }

  /** The boxes that are not lanes, in their new places. */
  function NewNodes(lanes: seq<Box>, nodes: seq<Box>, heights: Heights): seq<Box>
    requires lanes != []
  {
    Columns(lanes, nodes, |lanes|, heights) + SpanningStack(lanes, nodes, heights)
  }

  function Relaid(page: Page, heights: Heights): Page
    requires Lanes(page.boxes) != []
  {
    var lanes, nodes := Lanes(page.boxes), Filter(page.boxes, IsNode());
    page.(width := PageWidth(lanes), height := PageHeight(lanes, nodes, heights),
      boxes := LaneBoxes(lanes, LaneHeight(lanes, nodes, heights)) + NewNodes(lanes, nodes, heights))
  }

  // ----- Where the boxes are -----

  lemma {:induction false} EveryColumnEnds(lanes: seq<Box>, nodes: seq<Box>, m: nat, heights: Heights)
    requires 0 < m <= |lanes|
    ensures forall k :: 0 <= k < m ==> ColumnEnd(lanes, nodes, k, heights) <= LowestEnd(lanes, nodes, m, heights)
  {
    hide ColumnEnd;
    if m > 1 {
      EveryColumnEnds(lanes, nodes, m - 1, heights);
    }
  }

  /** The rectangle below the lanes' titles in which the k-th column stays. */
  lemma ColumnStaysInLane(lanes: seq<Box>, nodes: seq<Box>, k: nat, heights: Heights)
    requires k < |lanes| && AreTall(heights)
    ensures var c := ColumnOf(lanes, nodes, k, heights);
      && AllInside(c, LaneRect(lanes, k, LaneHeight(lanes, nodes, heights)))
      && AllApart(c) && (forall i :: 0 <= i < |c| ==> HasArea(c[i].at)) && LabelsFit(c, heights, LABEL_SIZE)
  {
    var column := ColumnNodes(lanes, nodes, k);
    EveryColumnEnds(lanes, nodes, |lanes|, heights);
    StackIsStack(column, ColumnFrame(lanes, k), MARGIN + PADDING_Y, NODE_GAP, heights);
    hide Stack, Below, ColumnNodes, LaneLeft, LabelsFit, LowestEnd;
    var c := ColumnOf(lanes, nodes, k, heights);
    assert ColumnEnd(lanes, nodes, k, heights) <= LowestEnd(lanes, nodes, |lanes|, heights);
  }

  lemma LanesAreApart(lanes: seq<Box>, k: nat, l: nat, height: real)
    requires k < l < |lanes|
    ensures LaneLeft(lanes, k) + ColumnWidth(lanes) + GUTTER <= LaneLeft(lanes, l)
    ensures Apart(LaneRect(lanes, k, height), LaneRect(lanes, l, height))
  {
    var pitch := ColumnWidth(lanes) + GUTTER;
    assert pitch == 506.0 || pitch == 536.0;
  }

  lemma LanesAreOnThePage(lanes: seq<Box>, k: nat)
    requires k < |lanes|
    ensures MARGIN <= LaneLeft(lanes, k) && LaneLeft(lanes, k) + ColumnWidth(lanes) + MARGIN <= PageWidth(lanes) as real
    ensures PageWidth(lanes) >= 544
  {
    assert ColumnWidth(lanes) == 430.0 || ColumnWidth(lanes) == 460.0;
  }

  ghost predicate HaveArea(boxes: seq<Box>) {
    forall i :: 0 <= i < |boxes| ==> HasArea(boxes[i].at)
  }

  /** The columns up to the m-th: inside the lanes' common band, apart, and left of the next lane. */
  lemma {:induction false} ColumnsAreApart(lanes: seq<Box>, nodes: seq<Box>, m: nat, heights: Heights)
    requires 0 < m <= |lanes| && AreTall(heights)
    ensures var c := Columns(lanes, nodes, m, heights);
      var height := LaneHeight(lanes, nodes, heights);
      && AllApart(c) && HaveArea(c) && LabelsFit(c, heights, LABEL_SIZE)
      && AllInside(c, Rect(MARGIN, MARGIN, LaneLeft(lanes, m - 1) + ColumnWidth(lanes) - MARGIN, height))
  {
    var height := LaneHeight(lanes, nodes, heights);
    ColumnStaysInLane(lanes, nodes, m - 1, heights);
    LanesAreOnThePage(lanes, m - 1);
    hide LaneHeight, ColumnOf;
    var last := ColumnOf(lanes, nodes, m - 1, heights);
    if m == 1 {
      assert Columns(lanes, nodes, 1, heights) == last;
      assert LaneRect(lanes, 0, height) == Rect(MARGIN, MARGIN, LaneLeft(lanes, 0) + ColumnWidth(lanes) - MARGIN, height);
    } else {
      ColumnsAreApart(lanes, nodes, m - 1, heights);
      LanesAreApart(lanes, m - 2, m - 1, height);
      hide LaneLeft, ColumnWidth;
      var front := Columns(lanes, nodes, m - 1, heights);
      var band := Rect(MARGIN, MARGIN, LaneLeft(lanes, m - 2) + ColumnWidth(lanes) - MARGIN, height);
      InsideApart(front, last, band, LaneRect(lanes, m - 1, height));
      ApartConcat(front, last);
      hide AllApart, Columns, AreTall;
    }
  }
}
