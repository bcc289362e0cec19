/**
 * The map camera (HexMap.tsx): a free pan offset, a zoom scale clamped to
 * [0.3, 3.0], and the screen/world transforms the renderer and the hover
 * hit-test share.
 */
module HexCamera {

  const MIN_SCALE: real := 0.3
  const MAX_SCALE: real := 3.0
  /** `zoomSensitivity`: scale change per unit of wheel delta. */
  const ZOOM_SENSITIVITY: real := 0.001

  datatype Point = Point(x: real, y: real)

  /** The pan of one drag move: the offset grows by the pointer's motion since the last move. */
  function Pan(offset: Point, last: Point, pointer: Point): (moved: Point)
    ensures moved.x - offset.x == pointer.x - last.x
    ensures moved.y - offset.y == pointer.y - last.y
  {
    Point(offset.x + (pointer.x - last.x), offset.y + (pointer.y - last.y))
  }

  /**
   * A drag through successive pointer positions, one mouse-move event each:
   * each event pans by its delta from the previous position and then records
   * the position (`lastMousePos.current = ...`).
   */
  function Drag(offset: Point, last: Point, moves: seq<Point>): Point
    decreases |moves|
  {
    if moves == [] then offset else Drag(Pan(offset, last, moves[0]), moves[0], moves[1..])
  }

  /** Successive pans sum: a whole drag moves the offset by the pointer's total displacement. */
  lemma {:induction false} DragTelescopes(offset: Point, last: Point, moves: seq<Point>)
    requires moves != []
    ensures Drag(offset, last, moves).x == offset.x + (moves[|moves| - 1].x - last.x)
    ensures Drag(offset, last, moves).y == offset.y + (moves[|moves| - 1].y - last.y)
    decreases |moves|
  {
    if |moves| > 1 {
      DragTelescopes(Pan(offset, last, moves[0]), moves[0], moves[1..]);
    }
  }

  /** `handleWheel`: `min(max(0.3, scale - deltaY * 0.001), 3.0)`. */
  function Zoom(scale: real, deltaY: real): (s: real)
    ensures MIN_SCALE <= s <= MAX_SCALE
    ensures MIN_SCALE <= scale - deltaY * ZOOM_SENSITIVITY <= MAX_SCALE ==> s == scale - deltaY * ZOOM_SENSITIVITY
    ensures scale - deltaY * ZOOM_SENSITIVITY < MIN_SCALE ==> s == MIN_SCALE
    ensures scale - deltaY * ZOOM_SENSITIVITY > MAX_SCALE ==> s == MAX_SCALE
  {
    var raw := scale - deltaY * ZOOM_SENSITIVITY;
    var lower := if MIN_SCALE >= raw then MIN_SCALE else raw;
    if lower <= MAX_SCALE then lower else MAX_SCALE
  }

  /** Scrolling further down never zooms in further: the new scale falls as deltaY grows. */
  lemma ZoomMonotone(scale: real, d1: real, d2: real)
    requires d1 <= d2
    ensures Zoom(scale, d2) <= Zoom(scale, d1)
  {
  }

  /** Where the renderer draws world point w: `cx + w * scale` with `cx = width / 2 + offset.x`. */
  function WorldToScreen(w: Point, offset: Point, scale: real, width: real, height: real): Point {
    Point(width / 2.0 + offset.x + w.x * scale, height / 2.0 + offset.y + w.y * scale)
  }

  lemma DivThenScale(a: real, scale: real)
    requires scale != 0.0
    ensures (a / scale) * scale == a
  {
  }

  /** The hit-test's world point under a canvas pixel: `(px - cx) / scale`. */
  function ScreenToWorld(p: Point, offset: Point, scale: real, width: real, height: real): (w: Point)
    requires scale != 0.0
    ensures WorldToScreen(w, offset, scale, width, height) == p
  {
    var dx, dy := p.x - (width / 2.0 + offset.x), p.y - (height / 2.0 + offset.y);
    DivThenScale(dx, scale);
    DivThenScale(dy, scale);
    Point(dx / scale, dy / scale)
  }

  /** At any reachable scale the hit-test reads back exactly the world point the renderer drew at that pixel. */
  lemma ScreenRoundTrip(w: Point, offset: Point, scale: real, width: real, height: real)
    requires MIN_SCALE <= scale <= MAX_SCALE
    ensures ScreenToWorld(WorldToScreen(w, offset, scale, width, height), offset, scale, width, height) == w
  {
    var p := WorldToScreen(w, offset, scale, width, height);
    assert (p.x - (width / 2.0 + offset.x)) / scale == (w.x * scale) / scale == w.x;
    assert (p.y - (height / 2.0 + offset.y)) / scale == (w.y * scale) / scale == w.y;
  }
}
