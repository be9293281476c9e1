/**
 * The read-only miniature of a spread: the same connectors as the canvas and
 * one card per slot, placed by the same board-to-percentage rule.
 */
module Thumbnail {
  import opened Positions
  import opened Board

  datatype Card = Card(left: real, top: real)
  datatype Thumbnail = Thumbnail(lines: seq<Line>, cards: seq<Card>)

  /**
   * The picture of a layout: max(0, n - 1) lines through the slots in label order
   * and n cards in array order, each centred at its board coordinates.
   */
  function Render(positions: seq<Position>): (t: Thumbnail)
    ensures |t.lines| == if positions == [] then 0 else |positions| - 1
    ensures forall i :: 0 <= i < |t.lines| ==>
      var s := Sort(positions);
      t.lines[i] == Line(s[i].x as real, s[i].y as real, s[i + 1].x as real, s[i + 1].y as real)
    ensures |t.cards| == |positions|
    ensures forall i :: 0 <= i < |t.cards| ==>
      t.cards[i] == Card(positions[i].x as real, positions[i].y as real)
  {
    SortedLines(positions);
    Thumbnail(ConnectorLines(positions), Cards(positions))
  }

  /** One card per slot, in array order, centred at its anchor. */
  function Cards(positions: seq<Position>): (r: seq<Card>)
    ensures |r| == |positions|
    ensures forall i :: 0 <= i < |r| ==> r[i] == Card(positions[i].x as real, positions[i].y as real)
  {
    seq(|positions|, i requires 0 <= i < |positions| =>
      var a := Anchor(positions[i]); Card(a.0, a.1))
  }

  /** Line i of a layout joins its i-th and (i + 1)-th slots in label order. */
  lemma SortedLines(positions: seq<Position>)
    ensures forall i :: 0 <= i < |ConnectorLines(positions)| ==>
      var s := Sort(positions);
      ConnectorLines(positions)[i] == Line(s[i].x as real, s[i].y as real, s[i + 1].x as real, s[i + 1].y as real)
  {
    var lines := ConnectorLines(positions);
    var s := Sort(positions);
    forall i | 0 <= i < |lines|
      ensures lines[i] == Line(s[i].x as real, s[i].y as real, s[i + 1].x as real, s[i + 1].y as real)
    {
      assert lines[i] == LineOf(Segment(s[i], s[i + 1]));
    }
  }
}
