/** Pages of labelled boxes.  Coordinates are exact; y grows downwards. */
module DiagramPages {
  import opened Sorting

  /** What of a box a layout keeps. */
  datatype Face = Face(id: string, text: string, style: map<string, string>, lane: bool)

  /** Where a box is. */
  datatype Rect = Rect(x: real, y: real, w: real, h: real)

  datatype Box = Box(face: Face, at: Rect)

  datatype Edge = Edge(id: string, source: string, target: string, style: map<string, string>)

  datatype Page = Page(
    sourceName: string, index: int, name: string, width: int, height: int, boxes: seq<Box>, edges: seq<Edge>)

  function IsLane(): Box -> bool {
    (b: Box) => b.face.lane
  }

  function IsNode(): Box -> bool {
    (b: Box) => !b.face.lane
  }

  function Ceil(r: real): (n: int)
    ensures (n - 1) as real < r <= n as real
  {
    -((-r).Floor)
  }

  // ----- Contents -----

  function Faces(boxes: seq<Box>): (f: seq<Face>)
    ensures |f| == |boxes| && forall i :: 0 <= i < |boxes| ==> f[i] == boxes[i].face
  {
    seq(|boxes|, i requires 0 <= i < |boxes| => boxes[i].face)
  }

  lemma FacesConcat(a: seq<Box>, b: seq<Box>)
    ensures Faces(a + b) == Faces(a) + Faces(b)
  {
  }

  lemma FacesWithoutOne(s: seq<Box>, i: nat)
    requires i < |s|
    ensures multiset(Faces(s)) == multiset(Faces(s[..i] + s[i + 1..])) + multiset{s[i].face}
  {
    WithoutOne(Faces(s), i);
    assert Faces(s)[i] in multiset(Faces(s));
    assert Faces(s[..i] + s[i + 1..]) == Faces(s)[..i] + Faces(s)[i + 1..];
  }

  lemma {:induction false} RearrangedFaces(a: seq<Box>, b: seq<Box>)
    requires multiset(a) == multiset(b)
    ensures multiset(Faces(a)) == multiset(Faces(b))
    decreases |a|
  {
    if a == [] {
      NothingLeft(b);
    } else {
      var i := TakeFirst(a, b);
      FacesWithoutOne(a, 0);
      FacesWithoutOne(b, i);
      assert a[..0] + a[1..] == a[1..];
      hide Faces;
      RearrangedFaces(a[1..], b[..i] + b[i + 1..]);
    }
  }

  // ----- Geometry -----

  /** The rectangles have no point in common. */
  predicate Apart(a: Rect, b: Rect) {
    a.x + a.w < b.x || b.x + b.w < a.x || a.y + a.h < b.y || b.y + b.h < a.y
  }

  ghost predicate AllApart(boxes: seq<Box>) {
    forall i, j :: 0 <= i < j < |boxes| ==> Apart(boxes[i].at, boxes[j].at)
  }

  ghost predicate EachApart(a: seq<Box>, b: seq<Box>) {
    forall i, j :: 0 <= i < |a| && 0 <= j < |b| ==> Apart(a[i].at, b[j].at)
  }

  predicate Inside(a: Rect, b: Rect) {
    b.x <= a.x && a.x + a.w <= b.x + b.w && b.y <= a.y && a.y + a.h <= b.y + b.h
  }

  ghost predicate AllInside(boxes: seq<Box>, r: Rect) {
    forall i :: 0 <= i < |boxes| ==> Inside(boxes[i].at, r)
  }

  predicate HasArea(r: Rect) {
    r.w > 0.0 && r.h > 0.0
  }

  lemma ApartConcat(a: seq<Box>, b: seq<Box>)
    requires AllApart(a) && AllApart(b) && EachApart(a, b)
    ensures AllApart(a + b)
  {
    hide Apart;
  }

  /** Boxes inside rectangles that are apart are apart. */
  lemma InsideApart(a: seq<Box>, b: seq<Box>, r: Rect, q: Rect)
    requires AllInside(a, r) && AllInside(b, q) && Apart(r, q)
    requires forall i :: 0 <= i < |a| ==> HasArea(a[i].at)
    requires forall i :: 0 <= i < |b| ==> HasArea(b[i].at)
    ensures EachApart(a, b)
  {
  }

  // ----- Label heights -----

  /** The height a label takes, by its width and preferred font size. */
  type Heights = (string, real, nat) -> real

  ghost predicate AreTall(heights: Heights) {
    forall text, width, size :: heights(text, width, size) >= 74.0
  }

  /** Every label has room. */
  ghost predicate LabelsFit(boxes: seq<Box>, heights: Heights, size: nat) {
    forall i :: 0 <= i < |boxes| ==> boxes[i].at.h >= heights(boxes[i].face.text, boxes[i].at.w, size)
  }
}
