/**
 * The invert window (InvertWindow.xaml.cs): a click-through window, excluded
 * from screen capture, that on every timer tick captures the screen under it,
 * inverts the colours of the captured bitmap in place, and displays the result.
 * It carries the same three grips as the tint window.
 */
module Invert {
  import opened Basics
  import opened WindowStyle
  import opened Grip
  import opened Geometry

  /** The interval of the capture timer, in milliseconds (about 30 ticks a second). */
  const TickIntervalMs := 33

  /**
   * The pixel bytes of a 32-bit BGRA buffer with every pixel's blue, green and
   * red bytes replaced by `255 - b`; every fourth byte, the alpha, is kept.
   */
  function InvertPixels(s: seq<byte>): (r: seq<byte>)
    requires |s| % 4 == 0
    ensures |r| == |s|
    decreases |s|
  {
    if s == [] then []
    else [255 - s[0], 255 - s[1], 255 - s[2], s[3]] + InvertPixels(s[4..])
  }

  /** Byte `k` of a BGRA buffer once inverted: an alpha byte (offset 3 of its pixel) is kept, the others complemented. */
  function InvertedByte(s: seq<byte>, k: int): byte
    requires 0 <= k < |s|
  {
    if k % 4 == 3 then s[k] else 255 - s[k]
  }

  /** Inverting the buffer pixel by pixel inverts each byte on its own. */
  lemma {:induction false} InvertPixelsAt(s: seq<byte>, k: int)
    requires |s| % 4 == 0 && 0 <= k < |s|
    ensures InvertPixels(s)[k] == InvertedByte(s, k)
    decreases |s|
  {
    if k >= 4 {
      InvertPixelsAt(s[4..], k - 4);
    }
  }

  /**
   * Pixel `p` of the inverted buffer, in B, G, R, A order: the three colour
   * channels are complemented and the alpha is unchanged.
   */
  lemma {:induction false} PixelInverted(s: seq<byte>, p: int)
    requires |s| % 4 == 0 && 0 <= p && 4 * p + 4 <= |s|
    ensures InvertPixels(s)[4 * p] == 255 - s[4 * p]
    ensures InvertPixels(s)[4 * p + 1] == 255 - s[4 * p + 1]
    ensures InvertPixels(s)[4 * p + 2] == 255 - s[4 * p + 2]
    ensures InvertPixels(s)[4 * p + 3] == s[4 * p + 3]
    decreases p
  {
    if p > 0 {
      PixelInverted(s[4..], p - 1);
    }
  }

  /** Inverting twice gives back the original buffer exactly. */
  lemma {:induction false} InvertPixelsInvolution(s: seq<byte>)
    requires |s| % 4 == 0
    ensures InvertPixels(InvertPixels(s)) == s
    decreases |s|
  {
    if s != [] {
      assert InvertPixels(s)[4..] == InvertPixels(s[4..]);
      InvertPixelsInvolution(s[4..]);
      assert s == s[..4] + s[4..];
    }
  }

  /** Inversion works pixel by pixel: inverting two buffers one after the other inverts their concatenation. */
  lemma {:induction false} InvertPixelsAppend(a: seq<byte>, b: seq<byte>)
    requires |a| % 4 == 0 && |b| % 4 == 0
    ensures InvertPixels(a + b) == InvertPixels(a) + InvertPixels(b)
    decreases |a|
  {
    if a == [] {
      assert a + b == b;
    } else {
      assert (a + b)[4..] == a[4..] + b;
      InvertPixelsAppend(a[4..], b);
    }
  }

  function Abs(x: int): nat
  {
    if x < 0 then -x else x
  }

  /** The number of bytes of locked bitmap data, `|stride| * height`: a whole number of pixels. */
  function ScanBytes(stride: int, height: nat): (n: nat)
    requires Abs(stride) % 4 == 0
    ensures n % 4 == 0
  {
    assert Abs(stride) * height == 4 * ((Abs(stride) / 4) * height);
    Abs(stride) * height
  }

  /** Pixels are whole: after a pixel that starts before the end another one fits. */
  lemma NextPixel(i: int, bytes: int)
    requires i % 4 == 0 && bytes % 4 == 0 && 0 <= i < bytes
    ensures i + 4 <= bytes && (i + 4) % 4 == 0
    ensures (i + 1) % 4 == 1 && (i + 2) % 4 == 2 && (i + 3) % 4 == 3
  {
  }

  /**
   * InvertBitmapColors over the locked bits of a 32-bit bitmap: the first
   * `|stride| * height` bytes are inverted pixel by pixel in place, in 4-byte
   * steps; bytes past them are untouched. A 32-bit bitmap's stride is a
   * multiple of 4, so the last step stays inside the buffer.
   */
  method InvertBitmapColors(buffer: array<byte>, stride: int, height: nat)
    requires Abs(stride) % 4 == 0 && ScanBytes(stride, height) <= buffer.Length
    modifies buffer
    ensures buffer[..ScanBytes(stride, height)] == InvertPixels(old(buffer[..ScanBytes(stride, height)]))
    ensures buffer[ScanBytes(stride, height)..] == old(buffer[ScanBytes(stride, height)..])
  {
    var bytes := ScanBytes(stride, height);
    ghost var orig := buffer[..];
    var i := 0;
    while i < bytes
      invariant 0 <= i <= bytes && i % 4 == 0
      invariant forall k | 0 <= k < i :: buffer[k] == InvertedByte(orig, k)
      invariant forall k | i <= k < buffer.Length :: buffer[k] == orig[k]
    {
      NextPixel(i, bytes);
      buffer[i] := 255 - buffer[i];          // blue
      buffer[i + 1] := 255 - buffer[i + 1];  // green
      buffer[i + 2] := 255 - buffer[i + 2];  // red
      i := i + 4;
    }
    forall k | 0 <= k < bytes
      ensures buffer[..bytes][k] == InvertPixels(orig[..bytes])[k]
    {
      InvertPixelsAt(orig[..bytes], k);
    }
  }

  /** `n` is what a cast to `int` makes of `x`: less than one away from it, on zero's side. */
  predicate TruncatedFrom(n: int, x: real)
  {
    if x >= 0.0 then 0 <= n && n as real <= x < n as real + 1.0
    else n <= 0 && n as real - 1.0 < x <= n as real
  }

  /** A rectangle in device pixels. */
  datatype DeviceRect = DeviceRect(x: int, y: int, width: int, height: int)

  /**
   * The window's rectangle in device pixels: the logical geometry scaled by the
   * display's horizontal and vertical DPI factors, each coordinate truncated.
   */
  function DeviceBounds(r: Rect, dpiX: real, dpiY: real): (d: DeviceRect)
    // each device coordinate is its scaled logical one cut toward zero
    ensures TruncatedFrom(d.x, r.left * dpiX) && TruncatedFrom(d.y, r.top * dpiY)
    ensures TruncatedFrom(d.width, r.width * dpiX) && TruncatedFrom(d.height, r.height * dpiY)
    // a window of positive size keeps a size of at least zero pixels
    ensures r.width * dpiX >= 0.0 && r.height * dpiY >= 0.0 ==> d.width >= 0 && d.height >= 0
  {
    DeviceRect(Truncate(r.left * dpiX), Truncate(r.top * dpiY), Truncate(r.width * dpiX), Truncate(r.height * dpiY))
  }

  /** The image the window displays: the device rectangle captured and its BGRA bytes. */
  datatype Frame = Frame(source: DeviceRect, pixels: seq<byte>)

  /**
   * What one tick's capture gets from the system: no presentation source for
   * the window, or the display's DPI factors together with the bitmap the
   * screen copy left, or None when an exception was thrown on the way (making
   * the bitmap, the device contexts or the conversion to an image).
   */
  datatype Capture =
    | NoPresentationSource
    | Screen(dpiX: real, dpiY: real, grabbed: Option<seq<byte>>)

  /** A 32bpp bitmap of the window's device size holds four bytes per pixel. */
  predicate Captured32bpp(r: Rect, c: Capture)
  {
    c.Screen? && c.grabbed.Some? ==>
      var d := DeviceBounds(r, c.dpiX, c.dpiY);
      d.width > 0 && d.height > 0 ==> |c.grabbed.value| == 4 * (d.width * d.height)
  }

  /**
   * The displayed image after one run of CaptureAndInvert on a window at `r`.
   * The previous image is kept when there is no presentation source, when the
   * device rectangle is empty, or when an exception was thrown; otherwise the
   * displayed image records the device rectangle captured, and its pixels are
   * the capture with B, G and R inverted: inverting them again gives back
   * exactly what was captured.
   */
  function TickImage(prev: Option<Frame>, r: Rect, c: Capture): (img: Option<Frame>)
    requires Captured32bpp(r, c)
    ensures c.NoPresentationSource? ==> img == prev
    ensures c.Screen? && (DeviceBounds(r, c.dpiX, c.dpiY).width <= 0 || DeviceBounds(r, c.dpiX, c.dpiY).height <= 0) ==> img == prev
    ensures c.Screen? && c.grabbed.None? ==> img == prev
    ensures c.Screen? && c.grabbed.Some? && DeviceBounds(r, c.dpiX, c.dpiY).width > 0 && DeviceBounds(r, c.dpiX, c.dpiY).height > 0 ==>
      img.Some? && img.value.source == DeviceBounds(r, c.dpiX, c.dpiY) &&
      |img.value.pixels| % 4 == 0 && InvertPixels(img.value.pixels) == c.grabbed.value
  {
    match c
    case NoPresentationSource => prev
    case Screen(dpiX, dpiY, grabbed) =>
      var d := DeviceBounds(r, dpiX, dpiY);
      if d.width <= 0 || d.height <= 0 then prev
      else match grabbed
        case None => prev
        case Some(px) =>
          InvertPixelsInvolution(px);
          Some(Frame(d, InvertPixels(px)))
  }

  /**
   * The capture of `w * h` pixels copied into a fresh bitmap buffer and inverted
   * there in place by InvertBitmapColors, with the 4-byte-per-pixel stride of a
   * 32bpp bitmap.
   */
  method InvertedCopy(px: seq<byte>, w: nat, h: nat) returns (inverted: seq<byte>)
    requires |px| == 4 * (w * h)
    ensures |px| % 4 == 0 && inverted == InvertPixels(px)
  {
    var bitmap := new byte[|px|](i requires 0 <= i < |px| => px[i]);
    StrideArea(w, h);
    ghost var n := ScanBytes(4 * w, h);
    assert bitmap[..n] == px;
    InvertBitmapColors(bitmap, 4 * w, h);
    assert bitmap[..] == bitmap[..n];
    inverted := bitmap[..];
  }

  /** A bitmap `w` pixels wide at four bytes per pixel holds `4 * w * h` bytes. */
  lemma StrideArea(w: nat, h: nat)
    ensures ScanBytes(4 * w, h) == 4 * (w * h)
  {
  }

  /** The invert window, its three grips and its capture timer. */
  class InvertWindow {
    var left: real
    var top: real
    var width: real
    var height: real
    var visible: bool
    var exStyle: bv32
    /** The extended style the window manager gives each new grip window. */
    const gripExStyle: bv32
    /** The display affinity requested for the window. */
    var displayAffinity: bv32
    /** Whether the capture timer exists, and its interval and running flag. */
    var timerCreated: bool
    var timerIntervalMs: int
    var timerRunning: bool
    /** What `CapturedImage.Source` shows; None before the first capture. */
    var image: Option<Frame>
    var moveGrip: GripWindow?
    var closeGrip: GripWindow?
    var resizeGrip: GripWindow?
    ghost var Repr: set<object>

    function Bounds(): Rect
      reads this
    {
      Rect(left, top, width, height)
    }

    /** The grips exist once the Loaded handler has run CreateGripWindows. */
    predicate HasGrips()
      reads this
    {
      moveGrip != null && closeGrip != null && resizeGrip != null
    }

    /** Every grip sits on its corner of the window. */
    ghost predicate Anchored()
      reads this, moveGrip, closeGrip, resizeGrip
      requires HasGrips()
    {
      var a := GripAnchors(Bounds());
      Point(moveGrip.left, moveGrip.top) == a.move &&
      Point(closeGrip.left, closeGrip.top) == a.close &&
      Point(resizeGrip.left, resizeGrip.top) == a.resize
    }

    /** The three grips exist, each of its own kind and well formed. */
    ghost predicate GripsReady()
      reads this, moveGrip, closeGrip, resizeGrip
    {
      HasGrips() &&
      moveGrip.kind == Move && closeGrip.kind == Close && resizeGrip.kind == Resize &&
      moveGrip.Valid() && closeGrip.Valid() && resizeGrip.Valid()
    }

    ghost predicate Valid()
      reads this, Repr
    {
      this in Repr &&
      (timerCreated <==> HasGrips()) &&
      (timerRunning ==> timerCreated) &&
      (HasGrips() ==> timerRunning == visible) &&
      (!HasGrips() ==> moveGrip == null && closeGrip == null && resizeGrip == null && Repr == {this}) &&
      (HasGrips() ==>
        Repr == {this, moveGrip, closeGrip, resizeGrip} &&
        GripsReady() &&
        moveGrip.loaded && closeGrip.loaded && resizeGrip.loaded &&
        timerIntervalMs == TickIntervalMs &&
        closeGrip.visible == visible &&
        Anchored())
    }

    /** The drag state of the move, close and resize grips. */
    function GripStates(): (DragState, DragState, DragState)
      reads this, moveGrip, closeGrip, resizeGrip
      requires HasGrips()
    {
      (moveGrip.State(), closeGrip.State(), resizeGrip.State())
    }

    /** The visibility of the move, close and resize grips. */
    function GripsShown(): (bool, bool, bool)
      reads this, moveGrip, closeGrip, resizeGrip
      requires HasGrips()
    {
      (moveGrip.visible, closeGrip.visible, resizeGrip.visible)
    }

    function GripOf(kind: GripType): (g: GripWindow)
      reads this
      requires HasGrips()
    {
      match kind
      case Move => moveGrip
      case Close => closeGrip
      case Resize => resizeGrip
    }

    /**
     * A new, hidden invert window with the geometry its XAML gives it; no timer
     * and no grips exist until it is first shown.
     */
    constructor (bounds: Rect, exStyle: bv32, gripExStyle: bv32)
      ensures Valid() && fresh(Repr) && !HasGrips()
      ensures Bounds() == bounds && !visible && image == None
      ensures !timerCreated && !timerRunning && displayAffinity == 0
      ensures this.exStyle == exStyle && this.gripExStyle == gripExStyle
    {
      left, top, width, height := bounds.left, bounds.top, bounds.width, bounds.height;
      visible := false;
      this.exStyle := exStyle;
      this.gripExStyle := gripExStyle;
      displayAffinity := 0;
      timerCreated, timerIntervalMs, timerRunning := false, 0, false;
      image := None;
      moveGrip, closeGrip, resizeGrip := null, null, null;
      Repr := {this};
    }

    /** UpdateGripPositions: pins the grips to the corners of the current geometry. */
    method UpdateGripPositions()
      requires GripsReady()
      modifies moveGrip`left, moveGrip`top, closeGrip`left, closeGrip`top, resizeGrip`left, resizeGrip`top
      ensures GripsReady() && Anchored()
    {
      moveGrip.PlaceAt(Point(left, top));
      closeGrip.PlaceAt(Point(left + width - closeGrip.width, top));
      resizeGrip.PlaceAt(Point(left + width - resizeGrip.width, top + height - resizeGrip.height));
    }

    /**
     * InvertWindow_Loaded, raised by the first Show: the style word gains the
     * tool-window, click-through and layered bits, the window asks to be
     * excluded from capture, the grips are created, and a 33 ms capture timer
     * is created and started.
     */
    method OnLoaded()
      requires Valid() && !HasGrips() && visible
      modifies this`exStyle, this`displayAffinity, this`moveGrip, this`closeGrip, this`resizeGrip, this`Repr
      modifies this`timerCreated, this`timerIntervalMs, this`timerRunning
      ensures Valid() && HasGrips() && fresh(Repr - {this})
      ensures exStyle == Applied(old(exStyle), OverlayFlags)
      ensures displayAffinity == WDA_EXCLUDEFROMCAPTURE
      ensures timerRunning && timerIntervalMs == TickIntervalMs
      ensures moveGrip.visible && closeGrip.visible && resizeGrip.visible
      ensures moveGrip.State() == Idle && resizeGrip.State() == Idle && closeGrip.State() == Idle
    {
      HideFromCapture();
      CreateGripWindows();
      StartTimer();
    }

    /**
     * The first half of InvertWindow_Loaded: the style word gains the
     * tool-window, click-through and layered bits, keeping every other bit, and
     * the window asks to be left out of screen captures, its own included.
     */
    method HideFromCapture()
      modifies this`exStyle, this`displayAffinity
      ensures exStyle == Applied(old(exStyle), OverlayFlags)
      ensures displayAffinity == WDA_EXCLUDEFROMCAPTURE
    {
      exStyle := exStyle | OverlayFlags;
      displayAffinity := WDA_EXCLUDEFROMCAPTURE;
    }

    /** The last part of InvertWindow_Loaded: a 33 ms timer is created and started. */
    method StartTimer()
      modifies this`timerCreated, this`timerIntervalMs, this`timerRunning
      ensures timerCreated && timerRunning && timerIntervalMs == TickIntervalMs
    {
      timerCreated, timerIntervalMs := true, TickIntervalMs;
      timerRunning := true;
    }

    /**
     * CreateGripWindows: makes the move, close and resize grips, shows each of
     * them, and pins them to the corners.
     */
    method CreateGripWindows()
      requires !HasGrips() && visible
      modifies this`moveGrip, this`closeGrip, this`resizeGrip, this`Repr
      ensures GripsReady() && Anchored()
      ensures fresh(moveGrip) && fresh(closeGrip) && fresh(resizeGrip)
      ensures Repr == {this, moveGrip, closeGrip, resizeGrip}
      ensures moveGrip.visible && closeGrip.visible && resizeGrip.visible
      ensures moveGrip.loaded && closeGrip.loaded && resizeGrip.loaded
      ensures moveGrip.State() == Idle && resizeGrip.State() == Idle && closeGrip.State() == Idle
    {
      var m := ShownGrip(Move, gripExStyle);
      var c := ShownGrip(Close, gripExStyle);
      var r := ShownGrip(Resize, gripExStyle);
      moveGrip, closeGrip, resizeGrip := m, c, r;
      Repr := {this, m, c, r};
      UpdateGripPositions();
    }

    /**
     * Show: the window and its three grips become visible, the capture timer
     * runs, and the grips are re-pinned.
     */
    method Show()
      requires Valid()
      modifies Repr
      ensures Valid() && HasGrips() && fresh(Repr - old(Repr))
      ensures visible && timerRunning && GripsShown() == (true, true, true)
      ensures Bounds() == old(Bounds()) && image == old(image)
      ensures exStyle == if old(HasGrips()) then old(exStyle) else Applied(old(exStyle), OverlayFlags)
      ensures displayAffinity == if old(HasGrips()) then old(displayAffinity) else WDA_EXCLUDEFROMCAPTURE
      ensures old(HasGrips()) ==> moveGrip == old(moveGrip) && closeGrip == old(closeGrip) && resizeGrip == old(resizeGrip)
      ensures GripStates() == if old(HasGrips()) then old(GripStates()) else (Idle, Idle, Idle)
    {
      if !HasGrips() {
        visible := true;
        OnLoaded();
      }
      ShowLoaded();
    }

    /** Show on a window whose Loaded handler has already run. */
    method ShowLoaded()
      requires Valid() && HasGrips()
      modifies Repr
      ensures Valid() && Repr == old(Repr) && visible && timerRunning && GripsShown() == (true, true, true)
      ensures Bounds() == old(Bounds()) && image == old(image)
      ensures exStyle == old(exStyle) && displayAffinity == old(displayAffinity)
      ensures GripStates() == old(GripStates())
    {
      visible := true;
      ShowGrips();
      timerRunning := true;
    }

    /** The part of Show that concerns the grips: each is shown, then all are re-pinned. */
    method ShowGrips()
      requires GripsReady() && moveGrip.loaded && closeGrip.loaded && resizeGrip.loaded
      modifies moveGrip`visible, moveGrip`exStyle, moveGrip`loaded, moveGrip`left, moveGrip`top
      modifies closeGrip`visible, closeGrip`exStyle, closeGrip`loaded, closeGrip`left, closeGrip`top
      modifies resizeGrip`visible, resizeGrip`exStyle, resizeGrip`loaded, resizeGrip`left, resizeGrip`top
      ensures GripsReady() && Anchored()
      ensures moveGrip.loaded && closeGrip.loaded && resizeGrip.loaded
      ensures moveGrip.visible && closeGrip.visible && resizeGrip.visible
    {
      moveGrip.Show();
      closeGrip.Show();
      resizeGrip.Show();
      UpdateGripPositions();
    }

    /**
     * Hide: the window and its three grips become invisible and the capture
     * timer stops, so no capture happens until the next Show.
     */
    method Hide()
      requires Valid()
      modifies Repr
      ensures Valid() && Repr == old(Repr) && !visible && !timerRunning
      ensures HasGrips() ==> GripsShown() == (false, false, false)
      ensures Bounds() == old(Bounds()) && image == old(image)
      ensures exStyle == old(exStyle) && displayAffinity == old(displayAffinity)
      ensures moveGrip == old(moveGrip) && closeGrip == old(closeGrip) && resizeGrip == old(resizeGrip)
      ensures HasGrips() ==> GripStates() == old(GripStates())
    {
      visible := false;
      if HasGrips() {
        moveGrip.Hide();
        closeGrip.Hide();
        resizeGrip.Hide();
        timerRunning := false;
      }
    }

    /**
     * Setting Left, Top, Width and Height; each raises LocationChanged or
     * SizeChanged, whose handler re-pins the grips.
     */
    method SetBounds(r: Rect)
      requires Valid()
      modifies this`left, this`top, this`width, this`height
      modifies {moveGrip, closeGrip, resizeGrip}`left, {moveGrip, closeGrip, resizeGrip}`top
      ensures Valid() && Bounds() == r
    {
      left, top, width, height := r.left, r.top, r.width, r.height;
      if HasGrips() {
        UpdateGripPositions();
      }
    }

    /**
     * UpdateTimer_Tick. A stopped timer raises no tick, so nothing changes then;
     * a running one runs CaptureAndInvert on the window's current geometry.
     */
    method Tick(c: Capture)
      requires Valid() && Captured32bpp(Bounds(), c)
      modifies this`image
      ensures Valid()
      ensures image == if timerRunning then TickImage(old(image), Bounds(), c) else old(image)
    {
      if timerRunning {
        CaptureAndInvert(c);
      }
    }

    /**
     * CaptureAndInvert with the capture itself given as `c`: bail out without a
     * presentation source or with an empty device rectangle, swallow any
     * exception, otherwise invert the captured bitmap in place and display it.
     */
    method CaptureAndInvert(c: Capture)
      requires Valid() && Captured32bpp(Bounds(), c)
      modifies this`image
      ensures Valid()
      ensures image == TickImage(old(image), Bounds(), c)
    {
      if c.NoPresentationSource? {
        return;
      }
      var d := DeviceBounds(Bounds(), c.dpiX, c.dpiY);
      if d.width <= 0 || d.height <= 0 {
        return;
      }
      if c.grabbed.None? {
        return;
      }
      var inverted := InvertedCopy(c.grabbed.value, d.width, d.height);
      image := Some(Frame(d, inverted));
    }

    /**
     * Left-button input, in screen coordinates, to the move grip: the grip sees
     * it relative to its own corner, and a drag it raises translates the window.
     */
    method MoveGripInput(input: Input)
      requires Valid() && HasGrips()
      modifies this`left, this`top, moveGrip
      modifies closeGrip`left, closeGrip`top, resizeGrip`left, resizeGrip`top
      ensures Valid()
      ensures (Bounds(), moveGrip.State()) == DragStep(Move, old(Bounds()), old(moveGrip.State()), input)
      ensures moveGrip.visible == old(moveGrip.visible)
    {
      var ev := moveGrip.HandleInput(Relative(input, Point(moveGrip.left, moveGrip.top)));
      if ev.Drag? {
        OnMoveDrag(ev.dx, ev.dy);
      }
    }

    /**
     * Left-button input, in screen coordinates, to the resize grip: a drag it
     * raises resizes the window, never below 50x50.
     */
    method ResizeGripInput(input: Input)
      requires Valid() && HasGrips()
      modifies this`width, this`height, resizeGrip
      modifies moveGrip`left, moveGrip`top, closeGrip`left, closeGrip`top
      ensures Valid()
      ensures (Bounds(), resizeGrip.State()) == DragStep(Resize, old(Bounds()), old(resizeGrip.State()), input)
      ensures resizeGrip.visible == old(resizeGrip.visible)
    {
      var ev := resizeGrip.HandleInput(Relative(input, Point(resizeGrip.left, resizeGrip.top)));
      if ev.Drag? {
        OnResizeDrag(ev.dx, ev.dy);
      }
    }

    /**
     * Left-button input to the close grip: a press hides the window and its
     * grips, stops the timer and raises OnOverlayHidden (`closed`); other input
     * does nothing.
     */
    method CloseGripInput(input: Input) returns (closed: bool)
      requires Valid() && HasGrips()
      modifies Repr
      ensures Valid() && Repr == old(Repr) && Bounds() == old(Bounds()) && image == old(image)
      ensures GripStates() == old(GripStates())
      ensures closed <==> input.Press?
      ensures visible == (old(visible) && !closed)
      ensures timerRunning == (old(timerRunning) && !closed)
      ensures closed ==> GripsShown() == (false, false, false)
      ensures !closed ==> GripsShown() == old(GripsShown())
      ensures exStyle == old(exStyle) && displayAffinity == old(displayAffinity)
    {
      var ev := closeGrip.HandleInput(Relative(input, Point(closeGrip.left, closeGrip.top)));
      closed := ev.CloseClick?;
      if closed {
        Hide();
      }
    }

    /**
     * Left-button input, in screen coordinates, to one of the grips, as wired by
     * CreateGripWindows. `closed` says whether OnOverlayHidden was raised.
     */
    method GripInput(kind: GripType, input: Input) returns (closed: bool)
      requires Valid() && HasGrips()
      modifies Repr
      ensures Valid() && Repr == old(Repr) && image == old(image)
      ensures (Bounds(), GripOf(kind).State()) == DragStep(kind, old(Bounds()), old(GripOf(kind).State()), input)
      ensures kind != Move ==> moveGrip.State() == old(moveGrip.State())
      ensures kind != Close ==> closeGrip.State() == old(closeGrip.State())
      ensures kind != Resize ==> resizeGrip.State() == old(resizeGrip.State())
      ensures closed <==> kind == Close && input.Press?
      ensures visible == (old(visible) && !closed)
      ensures timerRunning == (old(timerRunning) && !closed)
      ensures closed ==> GripsShown() == (false, false, false)
      ensures !closed ==> GripsShown() == old(GripsShown())
      ensures exStyle == old(exStyle) && displayAffinity == old(displayAffinity)
    {
      closed := false;
      match kind {
        case Move => MoveGripInput(input);
        case Resize => ResizeGripInput(input);
        case Close => closed := CloseGripInput(input);
      }
    }

    /** The move grip's OnDrag handler, then LocationChanged re-pinning the grips. */
    method OnMoveDrag(dx: real, dy: real)
      requires Valid() && HasGrips()
      modifies this`left, this`top, moveGrip`left, moveGrip`top, closeGrip`left, closeGrip`top, resizeGrip`left, resizeGrip`top
      ensures Valid() && Bounds() == Translated(old(Bounds()), dx, dy)
    {
      left := left + dx;
      top := top + dy;
      UpdateGripPositions();
    }

    /** The resize grip's OnDrag handler, then SizeChanged re-pinning the grips. */
    method OnResizeDrag(dx: real, dy: real)
      requires Valid() && HasGrips()
      modifies this`width, this`height, moveGrip`left, moveGrip`top, closeGrip`left, closeGrip`top, resizeGrip`left, resizeGrip`top
      ensures Valid() && Bounds() == Resized(old(Bounds()), dx, dy)
    {
      var newWidth := Max(MinDimension, width + dx);
      var newHeight := Max(MinDimension, height + dy);
      width := newWidth;
      height := newHeight;
      UpdateGripPositions();
    }
  }
}
