/**
 * The interactive layout canvas: pressing a card starts a drag and reports the
 * selection, window-level move events convert the pointer to board units and
 * report the new coordinates for the dragged card, and releasing the button
 * ends the drag. The callbacks to the host (onSelect, onPositionChange) are
 * recorded as a log of events in the order they are issued.
 */
module Canvas {
  import opened Common
  import opened Board

  datatype Event =
    | Select(index: nat)
    | PositionChange(index: nat, x: int, y: int)

  /** Every reported coordinate lies on the board: x in [0, 100], y in [0, 80]. */
  predicate InBounds(events: seq<Event>) {
    forall i :: 0 <= i < |events| && events[i].PositionChange? ==>
      0 <= events[i].x <= CanvasWidth && 0 <= events[i].y <= MaxAnchorY
  }

  class SpreadCanvas {
    /** Whether the host supplied an onSelect callback. */
    const reportsSelection: bool
    /** The card being dragged, if any. */
    var dragging: Option<nat>
    /** Whether the window mousemove/mouseup listeners are attached. */
    var listening: bool
    /** The callbacks issued so far. */
    var events: seq<Event>

    /** Listeners are attached exactly while a drag is active; every report is on the board. */
    ghost predicate Valid()
      reads this
    {
      (listening <==> dragging.Some?) && InBounds(events)
    }

    constructor (reportsSelection: bool)
      ensures Valid()
      ensures this.reportsSelection == reportsSelection
      ensures dragging == None && !listening && events == []
    {
      this.reportsSelection := reportsSelection;
      dragging := None;
      listening := false;
      events := [];
    }

    /** Pressing card `index`: start dragging it, attach the listeners, report the selection. */
    method MouseDown(index: nat)
      requires Valid()
      modifies this
      ensures Valid()
      ensures dragging == Some(index) && listening
      ensures events == old(events) + (if reportsSelection then [Select(index)] else [])
    {
      dragging := Some(index);
      listening := true;
      if reportsSelection {
        events := events + [Select(index)];
      }
    }

    /**
     * A pointer move anywhere in the window. Only an attached listener sees it;
     * it reports the dragged card at the converted, clamped coordinates.
     */
    method MouseMove(clientX: real, clientY: real, rect: Rect)
      requires Valid() && HasArea(rect)
      modifies this
      ensures Valid()
      ensures dragging == old(dragging) && listening == old(listening)
      ensures old(dragging).None? ==> events == old(events)
      ensures old(dragging).Some? ==>
        var p := PointerToBoard(clientX, clientY, rect);
        events == old(events) + [PositionChange(old(dragging).value, p.0, p.1)]
    {
      if listening {
        var p := PointerToBoard(clientX, clientY, rect);
        events := events + [PositionChange(dragging.value, p.0, p.1)];
      }
    }

    /** Releasing the button ends any drag and detaches the listeners. */
    method MouseUp()
      requires Valid()
      modifies this
      ensures Valid()
      ensures dragging == None && !listening && events == old(events)
    {
      if listening {
        dragging := None;
        listening := false;
      }
    }
  }

  /**
   * Press card 0, move to the point 40% across and 40% down a 200 x 200 pixel
   * canvas, release: the host hears the selection, then (40, 40), and the drag ends.
   */
  method DragScenario() returns (log: seq<Event>, finalDrag: Option<nat>)
    ensures log == [Select(0), PositionChange(0, 40, 40)]
    ensures finalDrag == None
  {
    var canvas := new SpreadCanvas(true);
    canvas.MouseDown(0);
    var rect := Rect(0.0, 0.0, 200.0, 200.0);
    AnchorRoundTrip(40, 40, rect);
    canvas.MouseMove(80.0, 80.0, rect);
    canvas.MouseUp();
    log, finalDrag := canvas.events, canvas.dragging;
  }
}
