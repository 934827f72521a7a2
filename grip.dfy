/**
 * A grip: a small always-on-top window that moves, resizes or closes the
 * overlay it belongs to (GripWindow.xaml.cs).
 *
 * Move and Resize grips run a press / move / release protocol and report, on
 * every pointer move while the button is held, the offset of the pointer from
 * the point where the button went down. That press point is never re-based:
 * deltas are cumulative. A Close grip has no drag state; each press raises a
 * close request.
 */
module Grip {
  import opened WindowStyle

  datatype GripType = Move | Resize | Close

  /** A position in logical (device-independent) units. */
  datatype Point = Point(x: real, y: real)

  /** The side of the square grip window that SetupGripVisual gives each kind. */
  function GripSize(kind: GripType): real
  {
    if kind == Move then 40.0 else 36.0
  }

  /** The drag fields of a grip: `_isDragging` and `_dragStart`. */
  datatype DragState = DragState(isDragging: bool, start: Point)

  /** The grip's state before any input. */
  const Idle := DragState(false, Point(0.0, 0.0))

  /** Left-button input, in the grip's own coordinates. */
  datatype Input = Press(at: Point) | Release | MoveTo(at: Point)

  /** What a grip raises in answer to one input. */
  datatype GripEvent = Quiet | Drag(dx: real, dy: real) | CloseClick

  /**
   * One input delivered to a grip of the given kind. Only the handlers that
   * SetupGripVisual wires for that kind run: a Close grip answers a press with
   * a close request and ignores everything else.
   */
  function Step(kind: GripType, s: DragState, input: Input): (r: (DragState, GripEvent))
    // a drag is reported exactly for a move while a Move/Resize grip is held
    ensures r.1.Drag? <==> kind != Close && s.isDragging && input.MoveTo?
    // ... and it is measured from the press point, which stays where it was
    ensures r.1.Drag? ==> r.0 == s && r.1 == Drag(input.at.x - s.start.x, input.at.y - s.start.y)
    // a close request is raised exactly for a press on a Close grip
    ensures r.1.CloseClick? <==> kind == Close && input.Press?
    // only a press on a Move/Resize grip starts a drag, and it records the press point
    ensures !s.isDragging && r.0.isDragging ==> kind != Close && input == Press(r.0.start)
    // ... and every such press starts one, from any state, raising nothing
    ensures kind != Close && input.Press? ==> r.0 == DragState(true, input.at) && r.1 == Quiet
    // a release always ends the drag, and the press point is kept
    ensures input.Release? ==> !r.0.isDragging || kind == Close
    ensures input.Release? ==> r.0.start == s.start
    // a Close grip's drag state never changes
    ensures kind == Close ==> r.0 == s
  {
    if kind == Close then
      (s, if input.Press? then CloseClick else Quiet)
    else
      match input
      case Press(p) => (DragState(true, p), Quiet)
      case Release => (s.(isDragging := false), Quiet)
      case MoveTo(p) =>
        if s.isDragging then (s, Drag(p.x - s.start.x, p.y - s.start.y)) else (s, Quiet)
  }

  /** A sequence of inputs: the final drag state and the event raised for each input. */
  function Run(kind: GripType, s: DragState, inputs: seq<Input>): (r: (DragState, seq<GripEvent>))
    ensures |r.1| == |inputs|
    decreases |inputs|
  {
    if inputs == [] then (s, [])
    else
      var (s1, e) := Step(kind, s, inputs[0]);
      var (s2, es) := Run(kind, s1, inputs[1..]);
      (s2, [e] + es)
  }

  /** A session that ends with a release leaves a Move/Resize grip idle, whatever came before. */
  lemma {:induction false} ReleaseEndsDrag(kind: GripType, s: DragState, inputs: seq<Input>)
    requires kind != Close && inputs != [] && inputs[|inputs| - 1].Release?
    ensures !Run(kind, s, inputs).0.isDragging
    decreases |inputs|
  {
    if |inputs| > 1 {
      ReleaseEndsDrag(kind, Step(kind, s, inputs[0]).0, inputs[1..]);
    }
  }

  /** The inputs of a pointer that moves through `pts` in turn. */
  function Moves(pts: seq<Point>): (r: seq<Input>)
    ensures |r| == |pts|
    ensures forall i | 0 <= i < |pts| :: r[i] == MoveTo(pts[i])
  {
    seq(|pts|, i requires 0 <= i < |pts| => MoveTo(pts[i]))
  }

  /**
   * While a Move/Resize grip is held, every move reports the offset of the
   * pointer from the ORIGINAL press point (deltas are cumulative, never
   * re-based), and the drag state does not change.
   */
  lemma {:induction false} HeldMovesAreCumulative(kind: GripType, start: Point, pts: seq<Point>)
    requires kind != Close
    ensures Run(kind, DragState(true, start), Moves(pts)).0 == DragState(true, start)
    ensures forall i | 0 <= i < |pts| ::
      Run(kind, DragState(true, start), Moves(pts)).1[i] == Drag(pts[i].x - start.x, pts[i].y - start.y)
    decreases |pts|
  {
    if pts != [] {
      assert Moves(pts)[1..] == Moves(pts[1..]);
      HeldMovesAreCumulative(kind, start, pts[1..]);
    }
  }

  /**
   * A whole drag session on a Move/Resize grip: a press at `p` followed by
   * moves through `pts` raises nothing for the press and then, for the i-th
   * move, the drag `pts[i] - p`; the grip stays held at `p`.
   */
  lemma PressThenMoves(kind: GripType, s: DragState, p: Point, pts: seq<Point>)
    requires kind != Close
    ensures Run(kind, s, [Press(p)] + Moves(pts)).0 == DragState(true, p)
    ensures Run(kind, s, [Press(p)] + Moves(pts)).1 ==
      [Quiet] + seq(|pts|, i requires 0 <= i < |pts| => Drag(pts[i].x - p.x, pts[i].y - p.y))
  {
    var inputs := [Press(p)] + Moves(pts);
    assert inputs[1..] == Moves(pts);
    HeldMovesAreCumulative(kind, p, pts);
  }

  /** Once released, a Move/Resize grip raises nothing however the pointer moves. */
  lemma {:induction false} ReleasedMovesAreQuiet(kind: GripType, s: DragState, pts: seq<Point>)
    requires !s.isDragging
    ensures Run(kind, s, Moves(pts)).0 == s
    ensures forall i | 0 <= i < |pts| :: Run(kind, s, Moves(pts)).1[i] == Quiet
    decreases |pts|
  {
    if pts != [] {
      assert Moves(pts)[1..] == Moves(pts[1..]);
      ReleasedMovesAreQuiet(kind, s, pts[1..]);
    }
  }

  /**
   * A Close grip, whatever it is sent, never drags and never changes state, and
   * raises exactly one close request per press.
   */
  lemma {:induction false} CloseGripOnlyCloses(s: DragState, inputs: seq<Input>)
    ensures Run(Close, s, inputs).0 == s
    ensures forall i | 0 <= i < |inputs| ::
      Run(Close, s, inputs).1[i] == (if inputs[i].Press? then CloseClick else Quiet)
    decreases |inputs|
  {
    if inputs != [] {
      CloseGripOnlyCloses(s, inputs[1..]);
    }
  }

  /** A grip window: its kind, size, position, visibility, style word and drag fields. */
  class GripWindow {
    const kind: GripType
    var width: real
    var height: real
    var left: real
    var top: real
    var visible: bool
    /** Whether the window has been shown once and its Loaded handler has run. */
    var loaded: bool
    var exStyle: bv32
    var isDragging: bool
    var dragStart: Point

    ghost predicate Valid()
      reads this
    {
      width == GripSize(kind) && height == GripSize(kind) &&
      (kind == Close ==> !isDragging)
    }

    /** The drag fields as a value. */
    function State(): DragState
      reads this
    {
      DragState(isDragging, dragStart)
    }

    /**
     * The constructor with SetupGripVisual: the window size depends on the kind
     * (40x40 for Move, 36x36 for Resize and Close). `exStyle` is the extended
     * style the window manager gives the new window.
     */
    constructor (kind: GripType, exStyle: bv32)
      ensures Valid()
      ensures this.kind == kind && this.exStyle == exStyle
      ensures width == height == (if kind == Move then 40.0 else 36.0)
      ensures State() == Idle && !visible && !loaded && left == 0.0 && top == 0.0
    {
      this.kind := kind;
      this.exStyle := exStyle;
      width, height := GripSize(kind), GripSize(kind);
      left, top := 0.0, 0.0;
      visible, loaded := false, false;
      isDragging, dragStart := false, Point(0.0, 0.0);
    }

    /** GripWindow_Loaded: makes the grip a tool window, keeping every other style bit. */
    method OnLoaded()
      requires Valid()
      modifies this`exStyle, this`loaded
      ensures Valid() && loaded
      ensures exStyle == Applied(old(exStyle), WS_EX_TOOLWINDOW)
    {
      exStyle := exStyle | WS_EX_TOOLWINDOW;
      loaded := true;
    }

    /** Window.Show; the first one raises Loaded. */
    method Show()
      requires Valid()
      modifies this`visible, this`exStyle, this`loaded
      ensures Valid() && visible && loaded
      ensures exStyle == if old(loaded) then old(exStyle) else Applied(old(exStyle), WS_EX_TOOLWINDOW)
    {
      visible := true;
      if !loaded {
        OnLoaded();
      }
    }

    /** Setting the grip window's Left and Top. */
    method PlaceAt(p: Point)
      modifies this`left, this`top
      ensures left == p.x && top == p.y
    {
      left, top := p.x, p.y;
    }

    /** Window.Hide. */
    method Hide()
      modifies this`visible
      ensures !visible
    {
      visible := false;
    }

    /**
     * The left-button handlers of the grip: Grip_MouseLeftButtonDown, _Up and
     * Grip_MouseMove for Move and Resize grips, the close lambda for a Close
     * grip. Returns the event raised (OnDrag or OnCloseClick).
     */
    method HandleInput(input: Input) returns (ev: GripEvent)
      requires Valid()
      modifies this`isDragging, this`dragStart
      ensures Valid()
      ensures (State(), ev) == Step(kind, old(State()), input)
    {
      if kind == Close {
        ev := if input.Press? then CloseClick else Quiet;
        return;
      }
      match input {
        case Press(p) =>
          isDragging := true;
          dragStart := p;
          ev := Quiet;
        case Release =>
          isDragging := false;
          ev := Quiet;
        case MoveTo(p) =>
          if !isDragging {
            ev := Quiet;
            return;
          }
          ev := Drag(p.x - dragStart.x, p.y - dragStart.y);
      }
    }
  }

  /** `new GripWindow(kind)` followed by its first Show, as CreateGripWindows does for each grip. */
  method ShownGrip(kind: GripType, exStyle: bv32) returns (g: GripWindow)
    ensures fresh(g) && g.Valid() && g.kind == kind
    ensures g.visible && g.loaded && g.State() == Idle
  {
    g := new GripWindow(kind, exStyle);
    g.Show();
  }
}
