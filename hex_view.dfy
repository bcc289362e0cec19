/**
 * The mutable state of the map component (HexMap.tsx): camera scale and pan
 * offset, the drag flag with the last pointer position, and the hovered cell,
 * updated by the pointer and wheel handlers.
 */
module HexView {
  import opened Wrappers
  import opened WorldTypes
  import opened HexMath
  import opened HexTerrain
  import opened HexGrid
  import opened HexCamera

  /**
   * Pointing at the centre of a map cell, where the renderer drew it for the
   * current camera, hovers that very cell (with exact arithmetic and an exact
   * square root of 3).
   */
  lemma PointerOnDrawnCell(h: Hex, offset: Point, scale: real, width: real, height: real,
                           locations: seq<WorldLocation>, sqrt3: real)
    requires sqrt3 * sqrt3 == 3.0
    requires MIN_SCALE <= scale <= MAX_SCALE && InMap(h.q, h.r)
    ensures var centre := HexToPixel(h, sqrt3);
            var pointer := WorldToScreen(Point(centre.0, centre.1), offset, scale, width, height);
            var w := ScreenToWorld(pointer, offset, scale, width, height);
            HoverAt(locations, PixelToHex(w.x, w.y, sqrt3)) == Some(HoveredHex(h.q, h.r, FindLocation(locations, h.q, h.r)))
  {
    var centre := HexToPixel(h, sqrt3);
    ScreenRoundTrip(Point(centre.0, centre.1), offset, scale, width, height);
    PixelRoundTrip(h, sqrt3);
  }

  class MapView {
    var scale: real
    var offset: Point
    var isDragging: bool
    var lastMouse: Point
    var hovered: Option<HoveredHex>

    /** The zoom scale stays within [0.3, 3.0], so the hit-test's division by it is defined. */
    ghost predicate Valid()
      reads this
    {
      MIN_SCALE <= scale <= MAX_SCALE
    }

    /** Initial state: zoomed out to 0.8, centred, not dragging, nothing hovered. */
    constructor ()
      ensures Valid()
      ensures scale == 0.8 && offset == Point(0.0, 0.0)
      ensures !isDragging && lastMouse == Point(0.0, 0.0) && hovered == None
    {
      scale := 0.8;
      offset := Point(0.0, 0.0);
      isDragging := false;
      lastMouse := Point(0.0, 0.0);
      hovered := None;
    }

    /** `handleMouseDown`: starts a drag at the pointer. */
    method MouseDown(client: Point)
      modifies this`isDragging, this`lastMouse
      ensures isDragging && lastMouse == client
    {
      isDragging := true;
      lastMouse := client;
    }

    /**
     * `handleMouseMove`: while dragging, pans by the pointer's motion since the
     * last event; then hit-tests the pointer against the camera of the current
     * frame (the pan takes effect from the next frame) and reports the
     * location under it, or none outside the map.
     */
    method MouseMove(client: Point, rectLeft: real, rectTop: real, width: real, height: real,
                     locations: seq<WorldLocation>, sqrt3: real) returns (reported: Option<WorldLocation>)
      requires Valid()
      modifies this`offset, this`lastMouse, this`hovered
      ensures Valid()
      ensures old(isDragging) ==> offset == Pan(old(offset), old(lastMouse), client) && lastMouse == client
      ensures !old(isDragging) ==> offset == old(offset) && lastMouse == old(lastMouse)
      ensures var w := ScreenToWorld(Point(client.x - rectLeft, client.y - rectTop), old(offset), scale, width, height);
              hovered == HoverAt(locations, PixelToHex(w.x, w.y, sqrt3))
      ensures hovered.Some? ==> reported == hovered.value.data
      ensures hovered.None? ==> reported == None
    {
      var frameOffset := offset;
      if isDragging {
        var dx := client.x - lastMouse.x;
        var dy := client.y - lastMouse.y;
        offset := Point(offset.x + dx, offset.y + dy);
        lastMouse := client;
      }
      var cx := width / 2.0 + frameOffset.x;
      var cy := height / 2.0 + frameOffset.y;
      var mx := (client.x - rectLeft - cx) / scale;
      var my := (client.y - rectTop - cy) / scale;
      var h := PixelToHex(mx, my, sqrt3);
      if InMap(h.q, h.r) {
        var existing := FindLocation(locations, h.q, h.r);
        hovered := Some(HoveredHex(h.q, h.r, existing));
        reported := existing;
      } else {
        hovered := None;
        reported := None;
      }
    }

    /** `handleMouseUp`: ends the drag. */
    method MouseUp()
      modifies this`isDragging
      ensures !isDragging
    {
      isDragging := false;
    }

    /** The canvas's mouse-leave handler: ends the drag and clears the hover. */
    method MouseLeave()
      modifies this`isDragging, this`hovered
      ensures !isDragging && hovered == None
    {
      isDragging := false;
      hovered := None;
    }

    /** `handleWheel`: zooms by the wheel delta, clamped to [0.3, 3.0] whatever the delta's sign or size. */
    method Wheel(deltaY: real)
      modifies this`scale
      ensures Valid()
      ensures scale == Zoom(old(scale), deltaY)
    {
      scale := Zoom(scale, deltaY);
    }
  }
}
