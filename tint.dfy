/**
 * The tint window (OverlayWindow.xaml.cs): a click-through, borderless window
 * filled with one semi-transparent colour, with a move, a close and a resize
 * grip pinned to its corners.
 */
module Tint {
  import opened Basics
  import opened WindowStyle
  import opened Grip
  import opened Geometry

  /** A WPF colour: alpha, red, green, blue. */
  datatype Argb = Argb(a: byte, r: byte, g: byte, b: byte)

  /** `Colors.Black`. */
  const Black := Argb(255, 0, 0, 0)

  /** `Math.Clamp(x, 0.0, 1.0)`. */
  function Clamp01(x: real): (c: real)
    ensures 0.0 <= c <= 1.0
    ensures 0.0 <= x <= 1.0 ==> c == x
  {
    if x < 0.0 then 0.0 else if x > 1.0 then 1.0 else x
  }

  /** The alpha byte for an opacity: `(byte)(Clamp(opacity, 0, 1) * 255)`, the cast truncating. */
  function AlphaFor(opacity: real): (alpha: byte)
    ensures opacity <= 0.0 ==> alpha == 0
    ensures opacity >= 1.0 ==> alpha == 255
    ensures alpha as real <= Clamp01(opacity) * 255.0 < alpha as real + 1.0
  {
    var scaled := Clamp01(opacity) * 255.0;
    assert 0 <= scaled.Floor <= 255;
    scaled.Floor as byte
  }

  /** GetOverlayOpacity: the alpha byte as a fraction of 255. */
  function OpacityOf(c: Argb): (o: real)
    ensures 0.0 <= o <= 1.0
  {
    c.a as real / 255.0
  }

  /**
   * The background after SetOverlayOpacity: red, green and blue are kept and the
   * alpha becomes the clamped opacity scaled to a byte, so that reading the
   * opacity back gives the clamped value rounded down to a multiple of 1/255.
   */
  function WithOpacity(c: Argb, opacity: real): (d: Argb)
    ensures d.r == c.r && d.g == c.g && d.b == c.b
    ensures OpacityOf(d) <= Clamp01(opacity) < OpacityOf(d) + 1.0 / 255.0
    ensures opacity <= 0.0 ==> d.a == 0
    ensures opacity >= 1.0 ==> d.a == 255
  {
    c.(a := AlphaFor(opacity))
  }

  /**
   * The background after SetOverlayColor: red, green and blue come from the new
   * colour, whose alpha is ignored; the current alpha, and so the opacity, is kept.
   */
  function WithColor(current: Argb, c: Argb): (d: Argb)
    ensures d.r == c.r && d.g == c.g && d.b == c.b
    ensures OpacityOf(d) == OpacityOf(current)
  {
    Argb(current.a, c.r, c.g, c.b)
  }

  /** Setting an opacity that is an exact multiple of 1/255 reads back exactly. */
  lemma OpacityRoundTrip(c: Argb, alpha: byte)
    ensures OpacityOf(WithOpacity(c, alpha as real / 255.0)) == alpha as real / 255.0
  {
    var o := alpha as real / 255.0;
    assert o * 255.0 == alpha as real;
    assert AlphaFor(o) == alpha;
  }

  /** The tint window and its three grips. */
  class OverlayWindow {
    var left: real
    var top: real
    var width: real
    var height: real
    var visible: bool
    var exStyle: bv32
    /** The extended style the window manager gives each new grip window. */
    const gripExStyle: bv32
    /** The colour of the background brush. */
    var color: Argb
    var moveGrip: GripWindow?
    var closeGrip: GripWindow?
    var resizeGrip: GripWindow?
    ghost var Repr: set<object>

    function Bounds(): Rect
      reads this
    {
      Rect(left, top, width, height)
    }

    /** The grips exist once the Loaded handler has run CreateGripWindows. */
    predicate HasGrips()
      reads this
    {
      moveGrip != null && closeGrip != null && resizeGrip != null
    }

    /** Every grip sits on its corner of the window. */
    ghost predicate Anchored()
      reads this, moveGrip, closeGrip, resizeGrip
      requires HasGrips()
    {
      var a := GripAnchors(Bounds());
      Point(moveGrip.left, moveGrip.top) == a.move &&
      Point(closeGrip.left, closeGrip.top) == a.close &&
      Point(resizeGrip.left, resizeGrip.top) == a.resize
    }

    ghost predicate Valid()
      reads this, Repr
    {
      this in Repr &&
      (!HasGrips() ==> moveGrip == null && closeGrip == null && resizeGrip == null && Repr == {this}) &&
      (HasGrips() ==>
        Repr == {this, moveGrip, closeGrip, resizeGrip} &&
        GripsReady() &&
        moveGrip.loaded && closeGrip.loaded && resizeGrip.loaded &&
        closeGrip.visible == visible &&
        Anchored())
    }

    /** The drag state of the move, close and resize grips. */
    function GripStates(): (DragState, DragState, DragState)
      reads this, moveGrip, closeGrip, resizeGrip
      requires HasGrips()
    {
      (moveGrip.State(), closeGrip.State(), resizeGrip.State())
    }

    /** The visibility of the move, close and resize grips. */
    function GripsShown(): (bool, bool, bool)
      reads this, moveGrip, closeGrip, resizeGrip
      requires HasGrips()
    {
      (moveGrip.visible, closeGrip.visible, resizeGrip.visible)
    }

    function GripOf(kind: GripType): (g: GripWindow)
      reads this
      requires HasGrips()
    {
      match kind
      case Move => moveGrip
      case Close => closeGrip
      case Resize => resizeGrip
    }

    /**
     * A new tint window with the geometry and background its XAML gives it;
     * `exStyle` and `gripExStyle` are the extended styles the window manager
     * gives the window and its grips.
     */
    constructor (bounds: Rect, background: Argb, exStyle: bv32, gripExStyle: bv32)
      ensures Valid() && fresh(Repr) && !HasGrips()
      ensures Bounds() == bounds && color == background && !visible
      ensures this.exStyle == exStyle && this.gripExStyle == gripExStyle
    {
      left, top, width, height := bounds.left, bounds.top, bounds.width, bounds.height;
      color := background;
      visible := false;
      this.exStyle := exStyle;
      this.gripExStyle := gripExStyle;
      moveGrip, closeGrip, resizeGrip := null, null, null;
      Repr := {this};
    }

    /** The three grips exist, each of its own kind and well formed. */
    ghost predicate GripsReady()
      reads this, moveGrip, closeGrip, resizeGrip
    {
      HasGrips() &&
      moveGrip.kind == Move && closeGrip.kind == Close && resizeGrip.kind == Resize &&
      moveGrip.Valid() && closeGrip.Valid() && resizeGrip.Valid()
    }

    /** UpdateGripPositions: pins the grips to the corners of the current geometry. */
    method UpdateGripPositions()
      requires GripsReady()
      modifies moveGrip`left, moveGrip`top, closeGrip`left, closeGrip`top, resizeGrip`left, resizeGrip`top
      ensures GripsReady() && Anchored()
    {
      moveGrip.PlaceAt(Point(left, top));
      closeGrip.PlaceAt(Point(left + width - closeGrip.width, top));
      resizeGrip.PlaceAt(Point(left + width - resizeGrip.width, top + height - resizeGrip.height));
    }

    /**
     * OverlayWindow_Loaded, raised by the first Show: the style word gains the
     * tool-window, click-through and layered bits, and the grips are created.
     */
    method OnLoaded()
      requires Valid() && !HasGrips() && visible
      modifies this
      ensures Valid() && HasGrips() && fresh(Repr - {this})
      ensures exStyle == Applied(old(exStyle), OverlayFlags)
      ensures Bounds() == old(Bounds()) && color == old(color) && visible
      ensures moveGrip.visible && closeGrip.visible && resizeGrip.visible
      ensures moveGrip.State() == Idle && resizeGrip.State() == Idle && closeGrip.State() == Idle
    {
      exStyle := exStyle | OverlayFlags;
      CreateGripWindows();
    }

    /**
     * CreateGripWindows: makes the move, close and resize grips, shows each of
     * them, and pins them to the corners.
     */
    method CreateGripWindows()
      requires !HasGrips() && visible
      modifies this`moveGrip, this`closeGrip, this`resizeGrip, this`Repr
      ensures GripsReady() && Anchored()
      ensures fresh(moveGrip) && fresh(closeGrip) && fresh(resizeGrip)
      ensures Repr == {this, moveGrip, closeGrip, resizeGrip}
      ensures moveGrip.visible && closeGrip.visible && resizeGrip.visible
      ensures moveGrip.loaded && closeGrip.loaded && resizeGrip.loaded
      ensures moveGrip.State() == Idle && resizeGrip.State() == Idle && closeGrip.State() == Idle
    {
      var m := ShownGrip(Move, gripExStyle);
      var c := ShownGrip(Close, gripExStyle);
      var r := ShownGrip(Resize, gripExStyle);
      moveGrip, closeGrip, resizeGrip := m, c, r;
      Repr := {this, m, c, r};
      UpdateGripPositions();
    }

    /** Show: the window and all three grips become visible and the grips are re-pinned. */
    method Show()
      requires Valid()
      modifies Repr
      ensures Valid() && HasGrips() && fresh(Repr - old(Repr))
      ensures visible && moveGrip.visible && closeGrip.visible && resizeGrip.visible
      ensures Bounds() == old(Bounds()) && color == old(color)
      ensures exStyle == if old(HasGrips()) then old(exStyle) else Applied(old(exStyle), OverlayFlags)
      ensures old(HasGrips()) ==> moveGrip == old(moveGrip) && closeGrip == old(closeGrip) && resizeGrip == old(resizeGrip)
      ensures GripStates() == if old(HasGrips()) then old(GripStates()) else (Idle, Idle, Idle)
    {
      visible := true;
      if !HasGrips() {
        OnLoaded();
      }
      moveGrip.Show();
      closeGrip.Show();
      resizeGrip.Show();
      UpdateGripPositions();
    }

    /** Hide: the window and all three grips become invisible. */
    method Hide()
      requires Valid()
      modifies Repr
      ensures Valid() && Repr == old(Repr) && !visible
      ensures HasGrips() ==> !moveGrip.visible && !closeGrip.visible && !resizeGrip.visible
      ensures Bounds() == old(Bounds()) && color == old(color) && exStyle == old(exStyle)
      ensures moveGrip == old(moveGrip) && closeGrip == old(closeGrip) && resizeGrip == old(resizeGrip)
      ensures HasGrips() ==> GripStates() == old(GripStates())
    {
      visible := false;
      if HasGrips() {
        moveGrip.Hide();
        closeGrip.Hide();
        resizeGrip.Hide();
      }
    }

    /** SetGripsVisible: shows or hides the move and resize grips; the close grip is untouched. */
    method SetGripsVisible(show: bool)
      requires Valid()
      modifies Repr
      ensures Valid() && Repr == old(Repr)
      ensures HasGrips() ==> moveGrip.visible == show && resizeGrip.visible == show
      ensures HasGrips() ==> closeGrip.visible == old(closeGrip.visible)
      ensures Bounds() == old(Bounds()) && color == old(color) && visible == old(visible) && exStyle == old(exStyle)
      ensures HasGrips() ==> GripStates() == old(GripStates())
    {
      if HasGrips() {
        if show {
          moveGrip.Show();
          resizeGrip.Show();
        } else {
          moveGrip.Hide();
          resizeGrip.Hide();
        }
      }
    }

    /** SetOverlayOpacity. */
    method SetOverlayOpacity(opacity: real)
      requires Valid()
      modifies this`color
      ensures Valid()
      ensures color == WithOpacity(old(color), opacity)
    {
      var o := Clamp01(opacity);
      color := Argb((o * 255.0).Floor as byte, color.r, color.g, color.b);
    }

    /** SetOverlayColor. */
    method SetOverlayColor(c: Argb)
      requires Valid()
      modifies this`color
      ensures Valid()
      ensures color == WithColor(old(color), c)
    {
      color := Argb(color.a, c.r, c.g, c.b);
    }

    /** GetOverlayOpacity. */
    method GetOverlayOpacity() returns (o: real)
      ensures o == OpacityOf(color)
    {
      o := color.a as real / 255.0;
    }

    /** GetOverlayColor. */
    method GetOverlayColor() returns (c: Argb)
      ensures c == color
    {
      c := color;
    }

    /**
     * Setting Left, Top, Width and Height; each raises LocationChanged or
     * SizeChanged, whose handler re-pins the grips.
     */
    method SetBounds(r: Rect)
      requires Valid()
      modifies Repr
      ensures Valid() && Repr == old(Repr) && Bounds() == r
      ensures color == old(color) && visible == old(visible) && exStyle == old(exStyle)
      ensures HasGrips() ==> GripStates() == old(GripStates()) && GripsShown() == old(GripsShown())
    {
      left, top, width, height := r.left, r.top, r.width, r.height;
      if HasGrips() {
        UpdateGripPositions();
      }
    }

    /**
     * Left-button input, in screen coordinates, to the move grip: the grip sees
     * it relative to its own corner, and a drag it raises translates the window.
     */
    method MoveGripInput(input: Input)
      requires Valid() && HasGrips()
      modifies this`left, this`top, moveGrip
      modifies closeGrip`left, closeGrip`top, resizeGrip`left, resizeGrip`top
      ensures Valid()
      ensures (Bounds(), moveGrip.State()) == DragStep(Move, old(Bounds()), old(moveGrip.State()), input)
      ensures moveGrip.visible == old(moveGrip.visible)
    {
      var ev := moveGrip.HandleInput(Relative(input, Point(moveGrip.left, moveGrip.top)));
      if ev.Drag? {
        OnMoveDrag(ev.dx, ev.dy);
      }
    }

    /**
     * Left-button input, in screen coordinates, to the resize grip: a drag it
     * raises resizes the window, never below 50x50.
     */
    method ResizeGripInput(input: Input)
      requires Valid() && HasGrips()
      modifies this`width, this`height, resizeGrip
      modifies moveGrip`left, moveGrip`top, closeGrip`left, closeGrip`top
      ensures Valid()
      ensures (Bounds(), resizeGrip.State()) == DragStep(Resize, old(Bounds()), old(resizeGrip.State()), input)
      ensures resizeGrip.visible == old(resizeGrip.visible)
    {
      var ev := resizeGrip.HandleInput(Relative(input, Point(resizeGrip.left, resizeGrip.top)));
      if ev.Drag? {
        OnResizeDrag(ev.dx, ev.dy);
      }
    }

    /**
     * Left-button input to the close grip: a press hides the window and its
     * grips and raises OnOverlayHidden (`closed`); other input does nothing.
     */
    method CloseGripInput(input: Input) returns (closed: bool)
      requires Valid() && HasGrips()
      modifies Repr
      ensures Valid() && Repr == old(Repr) && Bounds() == old(Bounds())
      ensures GripStates() == old(GripStates())
      ensures closed <==> input.Press?
      ensures visible == (old(visible) && !closed)
      ensures closed ==> GripsShown() == (false, false, false)
      ensures !closed ==> GripsShown() == old(GripsShown())
      ensures color == old(color) && exStyle == old(exStyle)
    {
      var ev := closeGrip.HandleInput(Relative(input, Point(closeGrip.left, closeGrip.top)));
      closed := ev.CloseClick?;
      if closed {
        Hide();
      }
    }

    /**
     * Left-button input, in screen coordinates, to one of the grips, as wired by
     * CreateGripWindows. `closed` says whether OnOverlayHidden was raised.
     */
    method GripInput(kind: GripType, input: Input) returns (closed: bool)
      requires Valid() && HasGrips()
      modifies Repr
      ensures Valid() && Repr == old(Repr)
      ensures (Bounds(), GripOf(kind).State()) == DragStep(kind, old(Bounds()), old(GripOf(kind).State()), input)
      ensures kind != Move ==> moveGrip.State() == old(moveGrip.State())
      ensures kind != Close ==> closeGrip.State() == old(closeGrip.State())
      ensures kind != Resize ==> resizeGrip.State() == old(resizeGrip.State())
      ensures closed <==> kind == Close && input.Press?
      ensures visible == (old(visible) && !closed)
      ensures closed ==> GripsShown() == (false, false, false)
      ensures !closed ==> GripsShown() == old(GripsShown())
      ensures color == old(color) && exStyle == old(exStyle)
    {
      closed := false;
      match kind {
        case Move => MoveGripInput(input);
        case Resize => ResizeGripInput(input);
        case Close => closed := CloseGripInput(input);
      }
    }

    /** The move grip's OnDrag handler, then LocationChanged re-pinning the grips. */
    method OnMoveDrag(dx: real, dy: real)
      requires Valid() && HasGrips()
      modifies this`left, this`top, moveGrip`left, moveGrip`top, closeGrip`left, closeGrip`top, resizeGrip`left, resizeGrip`top
      ensures Valid() && Bounds() == Translated(old(Bounds()), dx, dy)
    {
      left := left + dx;
      top := top + dy;
      UpdateGripPositions();
    }

    /** The resize grip's OnDrag handler, then SizeChanged re-pinning the grips. */
    method OnResizeDrag(dx: real, dy: real)
      requires Valid() && HasGrips()
      modifies this`width, this`height, moveGrip`left, moveGrip`top, closeGrip`left, closeGrip`top, resizeGrip`left, resizeGrip`top
      ensures Valid() && Bounds() == Resized(old(Bounds()), dx, dy)
    {
      var newWidth := Max(MinDimension, width + dx);
      var newHeight := Max(MinDimension, height + dy);
      width := newWidth;
      height := newHeight;
      UpdateGripPositions();
    }
  }
}
