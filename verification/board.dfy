/**
 * The board coordinate space shared by the layout canvas and the thumbnail:
 * 100 x 100 units, with card anchors kept at most 80 units down so that a card
 * anchored at the bottom of the band stays inside the board. Arithmetic is
 * exact (reals), not IEEE doubles.
 */
module Board {
  import opened Positions

  const CanvasWidth: int := 100
  const CanvasHeight: int := 100
  const MaxAnchorY: int := 80

  /** A container's bounding rectangle in pixels. */
  datatype Rect = Rect(left: real, top: real, width: real, height: real)

  predicate HasArea(rect: Rect) {
    rect.width > 0.0 && rect.height > 0.0
  }

  /** Math.round: the nearest integer, with halves rounded towards +infinity. */
  function Round(r: real): (n: int)
    ensures r - 0.5 < n as real <= r + 0.5
  {
    (r + 0.5).Floor
  }

  /** Math.max(lo, Math.min(hi, v)). */
  function Clamp(v: int, lo: int, hi: int): (r: int)
    requires lo <= hi
    ensures lo <= r <= hi
    ensures lo <= v <= hi ==> r == v
    ensures v < lo ==> r == lo
    ensures v > hi ==> r == hi
  {
    var upper := if hi < v then hi else v;
    if lo > upper then lo else upper
  }

  /** A pointer offset within an extent, scaled to `dimension` board units. */
  function Scale(offset: real, extent: real, dimension: int): real
    requires extent > 0.0
  {
    offset / extent * dimension as real
  }

  /**
   * A pointer position to board units: scale, round, then clamp x to [0, 100]
   * and y to [0, 80]. Inside those bounds the rounded value is kept as is;
   * outside them it goes to the nearer bound.
   */
  function PointerToBoard(clientX: real, clientY: real, rect: Rect): (r: (int, int))
    requires HasArea(rect)
    ensures 0 <= r.0 <= CanvasWidth && 0 <= r.1 <= MaxAnchorY
    ensures var rx := Round(Scale(clientX - rect.left, rect.width, CanvasWidth));
      && (0 <= rx <= CanvasWidth ==> r.0 == rx)
      && (rx < 0 ==> r.0 == 0)
      && (rx > CanvasWidth ==> r.0 == CanvasWidth)
    ensures var ry := Round(Scale(clientY - rect.top, rect.height, CanvasHeight));
      && (0 <= ry <= MaxAnchorY ==> r.1 == ry)
      && (ry < 0 ==> r.1 == 0)
      && (ry > MaxAnchorY ==> r.1 == MaxAnchorY)
  {
    var rawX := Scale(clientX - rect.left, rect.width, CanvasWidth);
    var rawY := Scale(clientY - rect.top, rect.height, CanvasHeight);
    (Clamp(Round(rawX), 0, CanvasWidth), Clamp(Round(rawY), 0, MaxAnchorY))
  }

  /** `(v / dimension) * 100`: a board value as a percentage of the container. */
  function Percent(v: int, dimension: int): real
    requires dimension != 0
  {
    v as real / dimension as real * 100.0
  }

  /** Where a card is centred, as left/top percentages: its board x and y, unchanged. */
  function Anchor(p: Position): (r: (real, real))
    ensures r.0 == p.x as real && r.1 == p.y as real
  {
    (Percent(p.x, CanvasWidth), Percent(p.y, CanvasHeight))
  }

  /**
   * Placement and pointer conversion agree: a card is centred at x percent of
   * the container's width and y percent of its height (Anchor), and a pointer
   * held at that point converts back to exactly (x, y) for every in-range slot.
   */
  lemma AnchorRoundTrip(x: int, y: int, rect: Rect)
    requires 0 <= x <= CanvasWidth && 0 <= y <= MaxAnchorY
    requires HasArea(rect)
    ensures PointerToBoard(rect.left + rect.width * (x as real) / 100.0,
                           rect.top + rect.height * (y as real) / 100.0, rect) == (x, y)
  {
    var cx, cy := rect.left + rect.width * (x as real) / 100.0, rect.top + rect.height * (y as real) / 100.0;
    PointerOverValue(cx, rect.left, rect.width, x);
    PointerOverValue(cy, rect.top, rect.height, y);
  }

  /** A pointer `v` percent of the way across an extent scales and rounds back to `v`. */
  lemma PointerOverValue(pointer: real, origin: real, extent: real, v: int)
    requires extent > 0.0 && pointer == origin + extent * (v as real) / 100.0
    ensures Round(Scale(pointer - origin, extent, 100)) == v
  {
    var d := pointer - origin;
    assert d == extent * (v as real) / 100.0;
    ScaleBack(extent, v);
  }

  lemma ScaleBack(extent: real, v: int)
    requires extent > 0.0
    ensures Scale(extent * (v as real) / 100.0, extent, 100) == v as real
  {
    calc {
      Scale(extent * (v as real) / 100.0, extent, 100);
      (extent * (v as real) / 100.0) / extent * 100.0;
      { assert (extent * (v as real) / 100.0) / extent == (v as real) / 100.0; }
      v as real;
    }
  }

  /** A drawn connector between two anchors, in percentages. */
  datatype Line = Line(x1: real, y1: real, x2: real, y2: real)

  function LineOf(s: Segment): (l: Line)
    ensures l.x1 == s.from.x as real && l.y1 == s.from.y as real
    ensures l.x2 == s.to.x as real && l.y2 == s.to.y as real
  {
    var a, b := Anchor(s.from), Anchor(s.to);
    Line(a.0, a.1, b.0, b.1)
  }

  /** The connector lines of a layout: one per adjacent pair of the label-sorted slots. */
  function ConnectorLines(positions: seq<Position>): (r: seq<Line>)
    ensures |r| == if positions == [] then 0 else |positions| - 1
    ensures forall i :: 0 <= i < |r| ==> r[i] == LineOf(Connectors(positions)[i])
    ensures forall i :: 0 <= i < |r| - 1 ==> r[i].x2 == r[i + 1].x1 && r[i].y2 == r[i + 1].y1
  {
    var segments := Connectors(positions);
    LinesFollowSegments(segments, LinesOf(segments));
    LinesOf(segments)
  }

  function LinesOf(segments: seq<Segment>): (r: seq<Line>)
    ensures |r| == |segments| && forall i :: 0 <= i < |r| ==> r[i] == LineOf(segments[i])
  {
    seq(|segments|, i requires 0 <= i < |segments| => LineOf(segments[i]))
  }

  /** Lines drawn from a chain of segments form a chain themselves. */
  lemma LinesFollowSegments(segments: seq<Segment>, r: seq<Line>)
    requires forall i :: 0 <= i < |segments| - 1 ==> segments[i].to == segments[i + 1].from
    requires |r| == |segments| && forall i :: 0 <= i < |r| ==> r[i] == LineOf(segments[i])
    ensures forall i :: 0 <= i < |r| - 1 ==> r[i].x2 == r[i + 1].x1 && r[i].y2 == r[i + 1].y1
  {
    forall i | 0 <= i < |r| - 1
      ensures r[i].x2 == r[i + 1].x1 && r[i].y2 == r[i + 1].y1
    {
      assert segments[i].to == segments[i + 1].from;
    }
  }
}
