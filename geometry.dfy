/**
 * The geometry the tint window (OverlayWindow.xaml.cs) and the invert window
 * (InvertWindow.xaml.cs) share: what a move or resize drag does to the window,
 * where the three grips are anchored, and what a whole drag session does when
 * the pointer is followed in screen coordinates.
 */
module Geometry {
  import opened Grip

  /** The smallest width and height a resize drag leaves. */
  const MinDimension: real := 50.0

  /** A window's Left, Top, Width and Height. */
  datatype Rect = Rect(left: real, top: real, width: real, height: real)

  function Max(a: real, b: real): real
  {
    if a < b then b else a
  }

  /** The move grip's OnDrag handler: `Left += dx; Top += dy`. The size is untouched. */
  function Translated(r: Rect, dx: real, dy: real): (t: Rect)
    ensures t.width == r.width && t.height == r.height
    ensures t.left - r.left == dx && t.top - r.top == dy
  {
    r.(left := r.left + dx, top := r.top + dy)
  }

  /**
   * The resize grip's OnDrag handler: `Width = Max(50, Width + dx)` and the same
   * for the height. The top-left corner stays put, and the result is never
   * smaller than 50 in either direction.
   */
  function Resized(r: Rect, dx: real, dy: real): (t: Rect)
    ensures t.left == r.left && t.top == r.top
    ensures t.width >= MinDimension && t.height >= MinDimension
    ensures r.width + dx >= MinDimension ==> t.width == r.width + dx
    ensures r.width + dx <= MinDimension ==> t.width == MinDimension
    ensures r.height + dy >= MinDimension ==> t.height == r.height + dy
    ensures r.height + dy <= MinDimension ==> t.height == MinDimension
  {
    r.(width := Max(MinDimension, r.width + dx), height := Max(MinDimension, r.height + dy))
  }

  /** The top-left corner of each grip window. */
  datatype Anchors = Anchors(move: Point, close: Point, resize: Point)

  /**
   * UpdateGripPositions: the move grip sits on the window's top-left corner, the
   * close grip on its top-right corner and the resize grip on its bottom-right
   * corner.
   */
  function GripAnchors(r: Rect): (a: Anchors)
    ensures a.move == Point(r.left, r.top)
    ensures a.close.x + GripSize(Close) == r.left + r.width && a.close.y == r.top
    ensures a.resize.x + GripSize(Resize) == r.left + r.width && a.resize.y + GripSize(Resize) == r.top + r.height
  {
    Anchors(
      Point(r.left, r.top),
      Point(r.left + r.width - GripSize(Close), r.top),
      Point(r.left + r.width - GripSize(Resize), r.top + r.height - GripSize(Resize)))
  }

  /**
   * Each grip's outer edges lie on the window's edges: the move grip's top-left
   * corner is the window's, the close grip's top-right corner is the window's,
   * the resize grip's bottom-right corner is the window's. On a window at least
   * 40 wide and high (a resized window is at least 50) every grip lies inside it.
   */
  lemma GripsOnCorners(r: Rect)
    ensures GripAnchors(r).move == Point(r.left, r.top)
    ensures GripAnchors(r).close.x + GripSize(Close) == r.left + r.width && GripAnchors(r).close.y == r.top
    ensures GripAnchors(r).resize.x + GripSize(Resize) == r.left + r.width
    ensures GripAnchors(r).resize.y + GripSize(Resize) == r.top + r.height
    ensures r.width >= GripSize(Move) && r.height >= GripSize(Move) ==>
      forall k: GripType ::
        r.left <= GripOrigin(k, r).x && GripOrigin(k, r).x + GripSize(k) <= r.left + r.width &&
        r.top <= GripOrigin(k, r).y && GripOrigin(k, r).y + GripSize(k) <= r.top + r.height
  {
  }

  /** The top-left corner of the grip of the given kind. */
  function GripOrigin(kind: GripType, r: Rect): Point
  {
    var a := GripAnchors(r);
    match kind
    case Move => a.move
    case Close => a.close
    case Resize => a.resize
  }

  /** An input given in screen coordinates, as the grip at `o` sees it (`e.GetPosition(this)`). */
  function Relative(input: Input, o: Point): Input
  {
    match input
    case Press(p) => Press(Point(p.x - o.x, p.y - o.y))
    case Release => Release
    case MoveTo(p) => MoveTo(Point(p.x - o.x, p.y - o.y))
  }

  /** What the window does with an event raised by its grip of the given kind. */
  function Handled(kind: GripType, r: Rect, ev: GripEvent): Rect
  {
    if ev.Drag? && kind == Move then Translated(r, ev.dx, ev.dy)
    else if ev.Drag? && kind == Resize then Resized(r, ev.dx, ev.dy)
    else r
  }

  /**
   * One screen-coordinate input to the grip of `kind` of a window at `r`: the
   * grip sees it relative to its anchor, the window applies the event the grip
   * raises, and the grips are re-anchored to the new geometry.
   */
  function DragStep(kind: GripType, r: Rect, s: DragState, input: Input): (res: (Rect, DragState))
    // only a move while a Move or Resize grip is held changes the window
    ensures kind == Close || !s.isDragging || !input.MoveTo? ==> res.0 == r
    // a held move grip puts the window's corner where the pointer is, less the press point in the grip
    ensures kind == Move && s.isDragging && input.MoveTo? ==>
      res.0.left == input.at.x - s.start.x && res.0.top == input.at.y - s.start.y &&
      res.0.width == r.width && res.0.height == r.height
    // a held resize grip moves the bottom-right corner by the same rule, down to the minimum size
    ensures kind == Resize && s.isDragging && input.MoveTo? ==>
      res.0.left == r.left && res.0.top == r.top &&
      res.0.width == Max(MinDimension, input.at.x - s.start.x + GripSize(Resize) - r.left) &&
      res.0.height == Max(MinDimension, input.at.y - s.start.y + GripSize(Resize) - r.top)
    // a press on a Move or Resize grip starts a drag from where it landed in the grip
    ensures kind != Close && input.Press? ==>
      res.0 == r && res.1 == DragState(true, Point(input.at.x - GripOrigin(kind, r).x, input.at.y - GripOrigin(kind, r).y))
    // a release ends it
    ensures input.Release? && kind != Close ==> !res.1.isDragging
  {
    var (s', ev) := Step(kind, s, Relative(input, GripOrigin(kind, r)));
    (Handled(kind, r, ev), s')
  }

  /** A sequence of screen-coordinate inputs to one grip. */
  function DragSession(kind: GripType, r: Rect, s: DragState, inputs: seq<Input>): (Rect, DragState)
    decreases |inputs|
  {
    if inputs == [] then (r, s)
    else
      var (r1, s1) := DragStep(kind, r, s, inputs[0]);
      DragSession(kind, r1, s1, inputs[1..])
  }

  /** The pointer, in screen coordinates, at the press and after the moves. */
  function LastOr(p: Point, pts: seq<Point>): Point
  {
    if pts == [] then p else pts[|pts| - 1]
  }

  lemma {:induction false} MoveDragTracks(r0: Rect, p0: Point, r: Rect, last: Point, pts: seq<Point>)
    requires r == Translated(r0, last.x - p0.x, last.y - p0.y)
    ensures DragSession(Move, r, DragState(true, Point(p0.x - r0.left, p0.y - r0.top)), Moves(pts)) ==
      (Translated(r0, LastOr(last, pts).x - p0.x, LastOr(last, pts).y - p0.y),
       DragState(true, Point(p0.x - r0.left, p0.y - r0.top)))
    decreases |pts|
  {
    if pts != [] {
      var q := pts[0];
      assert Moves(pts)[1..] == Moves(pts[1..]);
      var s := DragState(true, Point(p0.x - r0.left, p0.y - r0.top));
      assert DragStep(Move, r, s, MoveTo(q)) == (Translated(r0, q.x - p0.x, q.y - p0.y), s);
      MoveDragTracks(r0, p0, Translated(r0, q.x - p0.x, q.y - p0.y), q, pts[1..]);
      assert LastOr(q, pts[1..]) == LastOr(last, pts);
    }
  }

  /**
   * Dragging the move grip: after a press at screen point `p0` and moves through
   * `pts`, the window has been translated by exactly the pointer's travel. The
   * cumulative deltas and the re-anchoring of the grip after each move together
   * make the window follow the pointer without drift.
   */
  lemma MoveDragFollowsPointer(r0: Rect, s: DragState, p0: Point, pts: seq<Point>)
    ensures DragSession(Move, r0, s, [Press(p0)] + Moves(pts)).0 ==
      Translated(r0, LastOr(p0, pts).x - p0.x, LastOr(p0, pts).y - p0.y)
  {
    var start := DragState(true, Point(p0.x - r0.left, p0.y - r0.top));
    assert DragStep(Move, r0, s, Press(p0)) == (r0, start);
    assert ([Press(p0)] + Moves(pts))[1..] == Moves(pts);
    assert r0 == Translated(r0, p0.x - p0.x, p0.y - p0.y);
    MoveDragTracks(r0, p0, r0, p0, pts);
  }

  /**
   * During a resize drag, from any window with the starting corner, each move
   * makes the window the starting window resized by the pointer's offset from
   * the press, so after the moves it is the one the last move gives.
   */
  lemma {:induction false} ResizeDragTracks(r0: Rect, p0: Point, r: Rect, last: Point, pts: seq<Point>)
    requires r.left == r0.left && r.top == r0.top
    requires pts == [] ==> r == Resized(r0, last.x - p0.x, last.y - p0.y)
    ensures DragSession(Resize, r, DragState(true, Point(p0.x - GripOrigin(Resize, r0).x, p0.y - GripOrigin(Resize, r0).y)), Moves(pts)).0 ==
      Resized(r0, LastOr(last, pts).x - p0.x, LastOr(last, pts).y - p0.y)
    decreases |pts|
  {
    var s := DragState(true, Point(p0.x - GripOrigin(Resize, r0).x, p0.y - GripOrigin(Resize, r0).y));
    if pts != [] {
      var q := pts[0];
      assert Moves(pts)[1..] == Moves(pts[1..]);
      var o := GripOrigin(Resize, r);
      var ev := Drag(q.x - o.x - s.start.x, q.y - o.y - s.start.y);
      assert Step(Resize, s, Relative(MoveTo(q), o)) == (s, ev);
      assert r.width + ev.dx == r0.width + (q.x - p0.x);
      assert r.height + ev.dy == r0.height + (q.y - p0.y);
      assert DragStep(Resize, r, s, MoveTo(q)) == (Resized(r0, q.x - p0.x, q.y - p0.y), s);
      ResizeDragTracks(r0, p0, Resized(r0, q.x - p0.x, q.y - p0.y), q, pts[1..]);
      assert LastOr(q, pts[1..]) == LastOr(last, pts);
    }
  }

  /**
   * Dragging the resize grip: after a press at screen point `p0` and at least
   * one move through `pts`, the window's size is its size at the press plus the
   * pointer's travel, floored at 50, and its top-left corner has not moved. The
   * press alone leaves the window as it is, whatever its size.
   */
  lemma ResizeDragFollowsPointer(r0: Rect, s: DragState, p0: Point, pts: seq<Point>)
    // a press alone changes nothing, even on a window below the minimum size
    ensures pts == [] ==> DragSession(Resize, r0, s, [Press(p0)] + Moves(pts)).0 == r0
    // after any move the size is the starting size plus the pointer's travel, at least 50
    ensures pts != [] ==>
      DragSession(Resize, r0, s, [Press(p0)] + Moves(pts)).0 ==
      Resized(r0, LastOr(p0, pts).x - p0.x, LastOr(p0, pts).y - p0.y)
  {
    var o := GripOrigin(Resize, r0);
    var start := DragState(true, Point(p0.x - o.x, p0.y - o.y));
    assert DragStep(Resize, r0, s, Press(p0)) == (r0, start);
    assert ([Press(p0)] + Moves(pts))[1..] == Moves(pts);
    if pts != [] {
      ResizeDragTracks(r0, p0, r0, p0, pts);
    }
  }
}
