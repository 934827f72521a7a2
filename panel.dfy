/**
 * The control panel (ControlPanel.xaml.cs) as the coordinator of the two
 * overlay modes: a toggle button, an opacity slider and the colour presets
 * decide which of the tint window and the invert window is shown, and where.
 *
 * `PanelView` is everything the handlers read and write, as a value; `Step`
 * says what each handler does to it. The class `ControlPanel` below runs the
 * handlers on real `OverlayWindow` and `InvertWindow` objects and is proved
 * to follow `Step`.
 */
module Panel {
  import opened Basics
  import opened Grip
  import opened Geometry
  import opened Tint
  import opened Invert

  /** The Tag of the preset button that selects invert mode. */
  const InvertTag: string := "INVERT"

  /** The two contents of the toggle button. */
  const HideText: string := "Hide Overlay"
  const ShowText: string := "Show Overlay"

  /** The text of the label beside the slider: `"{n}%"` or `"N/A"`. */
  datatype OpacityText = Percent(n: int) | NotApplicable

  /** The two overlay windows, once the panel's Loaded handler has made them. */
  datatype Windows = Windows(tintShown: bool, invertShown: bool, tintRect: Rect, invertRect: Rect, tint: Argb)

  /**
   * The panel's state: `_isInvertMode`, the toggle's IsChecked and Content, the
   * slider's IsEnabled and Value, the label's text, and the windows (None
   * before ControlPanel_Loaded has run).
   */
  datatype PanelView = PanelView(
    invertMode: bool,
    checked: bool,
    toggleText: string,
    sliderEnabled: bool,
    slider: real,
    opacityText: OpacityText,
    windows: Option<Windows>)

  /** What the user (or a window) does to the panel. */
  datatype PanelEvent =
      /** A click on the toggle button (or the tray menu item): IsChecked flips, then ToggleOverlay_Click runs. */
    | ToggleClick
      /** A click on a preset button with the given Tag; `parsed` is what ColorConverter makes of the Tag (None when it throws). */
    | PresetClick(tag: string, parsed: Option<Argb>)
      /** The slider moved to `value`. */
    | SliderMoved(value: real)
      /** Grip input to the tint window left it at `r`; `closed` when its close grip was pressed. */
    | TintGrip(r: Rect, closed: bool)
      /** Grip input to the invert window left it at `r`; `closed` when its close grip was pressed. */
    | InvertGrip(r: Rect, closed: bool)

  /** The toggle's content offers the action a click would take: hide while checked, show while not. */
  predicate ToggleLabelled(v: PanelView)
  {
    v.toggleText == if v.checked then HideText else ShowText
  }

  /** OnOverlayHiddenByGrip: the toggle is unchecked and offers to show the overlay again. */
  function HiddenByGrip(v: PanelView): (r: PanelView)
    ensures !r.checked && ToggleLabelled(r)
    // the mode, the slider and the windows are untouched
    ensures r.invertMode == v.invertMode && r.windows == v.windows
    ensures r.sliderEnabled == v.sliderEnabled && r.slider == v.slider && r.opacityText == v.opacityText
  {
    v.(checked := false, toggleText := ShowText)
  }

  /**
   * ToggleOverlay_Click, after the click has flipped IsChecked: when checked,
   * the current mode's window is shown; when unchecked, both are hidden.
   */
  function ToggleStep(v: PanelView): (r: PanelView)
    ensures r.checked == !v.checked && ToggleLabelled(r)
    ensures r.invertMode == v.invertMode && r.windows.Some? == v.windows.Some?
    ensures r.sliderEnabled == v.sliderEnabled && r.slider == v.slider && r.opacityText == v.opacityText
    ensures r.windows.Some? ==>
      var (w, w') := (v.windows.value, r.windows.value);
      // nothing moves and the tint is kept
      w'.tintRect == w.tintRect && w'.invertRect == w.invertRect && w'.tint == w.tint &&
      // unchecking hides both windows
      (!r.checked ==> !w'.tintShown && !w'.invertShown) &&
      // checking shows the current mode's window and leaves the other as it was
      (r.checked && r.invertMode ==> w'.invertShown && w'.tintShown == w.tintShown) &&
      (r.checked && !r.invertMode ==> w'.tintShown && w'.invertShown == w.invertShown)
  {
    var checked := !v.checked;
    var windows :=
      match v.windows
      case None => None
      case Some(w) =>
        Some(if !checked then w.(tintShown := false, invertShown := false)
             else if v.invertMode then w.(invertShown := true)
             else w.(tintShown := true));
    v.(checked := checked, toggleText := if checked then HideText else ShowText, windows := windows)
  }

  /**
   * ColorPreset_Click. The INVERT preset enters invert mode: the tint window is
   * hidden and, when the toggle is checked, the invert window takes the tint
   * window's geometry and is shown; the slider is disabled. Any other preset
   * leaves invert mode: the invert window is hidden and, when the toggle is
   * checked, the tint window takes the invert window's geometry and is shown;
   * the slider is enabled, and the tint gets the parsed colour (Black when the
   * Tag does not parse) with its opacity kept.
   */
  function PresetStep(v: PanelView, tag: string, parsed: Option<Argb>): (r: PanelView)
    // the Tag alone decides the mode, and the slider is usable exactly in tint mode
    ensures r.invertMode == (tag == InvertTag) && r.sliderEnabled == !r.invertMode
    ensures r.opacityText == if r.invertMode then NotApplicable else Percent(Truncate(v.slider))
    ensures r.checked == v.checked && r.toggleText == v.toggleText && r.slider == v.slider
    ensures r.windows.Some? == v.windows.Some?
    ensures r.windows.Some? ==>
      var (w, w') := (v.windows.value, r.windows.value);
      // the other mode's window is hidden
      (r.invertMode ==> !w'.tintShown) && (!r.invertMode ==> !w'.invertShown) &&
      // with the toggle checked, the chosen mode's window is shown where the other one was
      (v.checked && r.invertMode ==> w'.invertShown && w'.invertRect == w.tintRect && w'.tintRect == w.tintRect) &&
      (v.checked && !r.invertMode ==> w'.tintShown && w'.tintRect == w.invertRect && w'.invertRect == w.invertRect) &&
      // with it unchecked, nothing moves and nothing new is shown
      (!v.checked ==> w'.tintRect == w.tintRect && w'.invertRect == w.invertRect &&
                      (w'.tintShown ==> w.tintShown) && (w'.invertShown ==> w.invertShown)) &&
      // invert mode keeps the tint; a colour preset sets its colour and keeps its opacity
      (r.invertMode ==> w'.tint == w.tint) &&
      (!r.invertMode ==>
        var c := if parsed.Some? then parsed.value else Black;
        w'.tint.r == c.r && w'.tint.g == c.g && w'.tint.b == c.b && OpacityOf(w'.tint) == OpacityOf(w.tint))
  {
    if tag == InvertTag then
      var windows :=
        match v.windows
        case None => None
        case Some(w) =>
          var hidden := w.(tintShown := false);
          Some(if v.checked then hidden.(invertRect := hidden.tintRect, invertShown := true) else hidden);
      v.(invertMode := true, sliderEnabled := false, opacityText := NotApplicable, windows := windows)
    else
      var windows :=
        match v.windows
        case None => None
        case Some(w) =>
          var hidden := w.(invertShown := false);
          var synced := if v.checked then hidden.(tintRect := hidden.invertRect, tintShown := true) else hidden;
          Some(synced.(tint := WithColor(synced.tint, if parsed.Some? then parsed.value else Black)));
      v.(invertMode := false, sliderEnabled := true, opacityText := Percent(Truncate(v.slider)), windows := windows)
  }

  /**
   * OpacitySlider_ValueChanged: before the windows exist only the slider
   * moves; afterwards the value is truncated to a whole percentage, shown in
   * the label, and becomes the tint's opacity.
   */
  function SliderStep(v: PanelView, value: real): (r: PanelView)
    ensures r.slider == value
    ensures r.invertMode == v.invertMode && r.checked == v.checked && r.toggleText == v.toggleText
    ensures r.sliderEnabled == v.sliderEnabled && r.windows.Some? == v.windows.Some?
    ensures r.windows.None? ==> r.opacityText == v.opacityText
    ensures r.windows.Some? ==>
      var (w, w') := (v.windows.value, r.windows.value);
      r.opacityText == Percent(Truncate(value)) &&
      // only the tint's alpha changes: to the whole percentage, rounded down to a multiple of 1/255
      w'.tintShown == w.tintShown && w'.invertShown == w.invertShown &&
      w'.tintRect == w.tintRect && w'.invertRect == w.invertRect &&
      w'.tint.r == w.tint.r && w'.tint.g == w.tint.g && w'.tint.b == w.tint.b &&
      OpacityOf(w'.tint) <= Clamp01(Truncate(value) as real / 100.0) < OpacityOf(w'.tint) + 1.0 / 255.0
  {
    match v.windows
    case None => v.(slider := value)
    case Some(w) =>
      var percentage := Truncate(value);
      v.(slider := value, opacityText := Percent(percentage),
         windows := Some(w.(tint := WithOpacity(w.tint, percentage as real / 100.0))))
  }

  /**
   * Grip input to one of the windows: its geometry becomes `r`; a press on its
   * close grip hides it and raises OnOverlayHidden, which the panel answers
   * with OnOverlayHiddenByGrip.
   */
  function GripStep(v: PanelView, onInvert: bool, r: Rect, closed: bool): (res: PanelView)
    ensures v.windows.None? ==> res == v
    ensures res.invertMode == v.invertMode && res.windows.Some? == v.windows.Some?
    ensures res.sliderEnabled == v.sliderEnabled && res.slider == v.slider && res.opacityText == v.opacityText
    // a press on a close grip unchecks the toggle; anything else leaves it
    ensures v.windows.Some? && closed ==> !res.checked && res.toggleText == ShowText
    ensures v.windows.None? || !closed ==> res.checked == v.checked && res.toggleText == v.toggleText
    ensures v.windows.Some? ==>
      var (w, w') := (v.windows.value, res.windows.value);
      w'.tint == w.tint &&
      // the window the grip belongs to ends at `r`, hidden if its close grip was pressed; the other is untouched
      (onInvert ==> w'.invertRect == r && w'.invertShown == (w.invertShown && !closed) &&
                    w'.tintRect == w.tintRect && w'.tintShown == w.tintShown) &&
      (!onInvert ==> w'.tintRect == r && w'.tintShown == (w.tintShown && !closed) &&
                     w'.invertRect == w.invertRect && w'.invertShown == w.invertShown)
  {
    match v.windows
    case None => v
    case Some(w) =>
      var moved :=
        if onInvert then w.(invertRect := r, invertShown := w.invertShown && !closed)
        else w.(tintRect := r, tintShown := w.tintShown && !closed);
      var v' := v.(windows := Some(moved));
      if closed then HiddenByGrip(v') else v'
  }

  function Step(v: PanelView, e: PanelEvent): PanelView
  {
    match e
    case ToggleClick => ToggleStep(v)
    case PresetClick(tag, parsed) => PresetStep(v, tag, parsed)
    case SliderMoved(value) => SliderStep(v, value)
    case TintGrip(r, closed) => GripStep(v, false, r, closed)
    case InvertGrip(r, closed) => GripStep(v, true, r, closed)
  }

  /** A sequence of events, in order. */
  function Run(v: PanelView, es: seq<PanelEvent>): PanelView
    decreases |es|
  {
    if es == [] then v else Run(Step(v, es[0]), es[1..])
  }

  /**
   * ControlPanel_Loaded: the tint window is made and shown with the slider's
   * value over 100 as its opacity (not truncated, unlike the slider handler);
   * the invert window is made and stays hidden.
   */
  function LoadedView(v: PanelView, tintRect: Rect, tintBackground: Argb, invertRect: Rect): (r: PanelView)
    ensures r.invertMode == v.invertMode && r.checked == v.checked && r.toggleText == v.toggleText
    ensures r.sliderEnabled == v.sliderEnabled && r.slider == v.slider && r.opacityText == v.opacityText
    // the tint window is shown where its XAML puts it, the invert window hidden where its XAML puts it
    ensures r.windows.Some? && r.windows.value.tintShown && !r.windows.value.invertShown
    ensures r.windows.value.tintRect == tintRect && r.windows.value.invertRect == invertRect
    // the tint keeps the XAML colour, with the slider's value as its opacity
    ensures var t := r.windows.value.tint;
      t.r == tintBackground.r && t.g == tintBackground.g && t.b == tintBackground.b &&
      OpacityOf(t) <= Clamp01(v.slider / 100.0) < OpacityOf(t) + 1.0 / 255.0
    // in tint mode the shown window belongs to the mode
    ensures !v.invertMode ==> ModeConsistent(r)
  {
    v.(windows := Some(Windows(true, false, tintRect, invertRect, WithOpacity(tintBackground, v.slider / 100.0))))
  }

  /** A shown window always belongs to the current mode. */
  predicate ModeConsistent(v: PanelView)
  {
    v.windows.Some? ==>
      (v.windows.value.tintShown ==> !v.invertMode) &&
      (v.windows.value.invertShown ==> v.invertMode)
  }

  /** Every handler keeps a shown window in the current mode. */
  lemma StepKeepsModeConsistent(v: PanelView, e: PanelEvent)
    requires ModeConsistent(v)
    ensures ModeConsistent(Step(v, e))
  {
  }

  lemma {:induction false} RunKeepsModeConsistent(v: PanelView, es: seq<PanelEvent>)
    requires ModeConsistent(v)
    ensures ModeConsistent(Run(v, es))
    decreases |es|
  {
    if es != [] {
      StepKeepsModeConsistent(v, es[0]);
      RunKeepsModeConsistent(Step(v, es[0]), es[1..]);
    }
  }

  /** Every handler keeps the toggle's content in step with its state. */
  lemma StepKeepsToggleLabelled(v: PanelView, e: PanelEvent)
    requires ToggleLabelled(v)
    ensures ToggleLabelled(Step(v, e))
  {
  }

  /**
   * From the state ControlPanel_Loaded leaves in tint mode, whatever the user
   * does, a shown invert window means invert mode and a shown tint window
   * means tint mode, so the two windows are never shown together.
   */
  lemma NeverBothShown(v: PanelView, tintRect: Rect, tintBackground: Argb, invertRect: Rect, es: seq<PanelEvent>)
    requires !v.invertMode
    ensures ModeConsistent(Run(LoadedView(v, tintRect, tintBackground, invertRect), es))
    ensures Run(LoadedView(v, tintRect, tintBackground, invertRect), es).windows.Some?
    ensures var w := Run(LoadedView(v, tintRect, tintBackground, invertRect), es).windows.value;
      !(w.tintShown && w.invertShown)
  {
    RunKeepsLoaded(LoadedView(v, tintRect, tintBackground, invertRect), es);
    RunKeepsModeConsistent(LoadedView(v, tintRect, tintBackground, invertRect), es);
  }

  /** Once made, the windows are never dropped. */
  lemma {:induction false} RunKeepsLoaded(v: PanelView, es: seq<PanelEvent>)
    requires v.windows.Some?
    ensures Run(v, es).windows.Some?
    decreases |es|
  {
    if es != [] {
      RunKeepsLoaded(Step(v, es[0]), es[1..]);
    }
  }

  /**
   * With the toggle checked, switching to INVERT and straight back to a colour
   * preset brings the tint window back exactly where it was, shown, with the
   * invert window hidden at the same place.
   */
  lemma InvertAndBackKeepsGeometry(v: PanelView, p1: Option<Argb>, tag: string, p2: Option<Argb>)
    requires v.checked && v.windows.Some? && tag != InvertTag
    ensures var w := Step(Step(v, PresetClick(InvertTag, p1)), PresetClick(tag, p2)).windows.value;
      w.tintRect == v.windows.value.tintRect && w.invertRect == v.windows.value.tintRect &&
      w.tintShown && !w.invertShown
  {
  }

  /**
   * A colour preset clicked while already in tint mode, with the toggle
   * checked, still copies the hidden invert window's geometry onto the shown
   * tint window: here the tint window, dragged to (300, 200), jumps back to
   * (100, 100), where the invert window was made.
   */
  lemma ColourPresetInTintModeMovesTint()
    ensures var v := PanelView(false, true, HideText, true, 50.0, Percent(50),
                               Some(Windows(true, false, Rect(300.0, 200.0, 400.0, 300.0), Rect(100.0, 100.0, 400.0, 300.0), Black)));
      var w := Step(v, PresetClick("#FF000080", None)).windows.value;
      w.tintShown && w.tintRect == Rect(100.0, 100.0, 400.0, 300.0) && w.tintRect != v.windows.value.tintRect
  {
  }

  /**
   * The INVERT preset clicked while already in invert mode, with the toggle
   * checked, copies the hidden tint window's geometry onto the shown invert
   * window: here the invert window, dragged to (300, 200), jumps back to
   * (100, 100), where the tint window was left.
   */
  lemma InvertPresetInInvertModeMovesInvert()
    ensures var v := PanelView(true, true, HideText, false, 50.0, NotApplicable,
                               Some(Windows(false, true, Rect(100.0, 100.0, 400.0, 300.0), Rect(300.0, 200.0, 400.0, 300.0), Black)));
      var w := Step(v, PresetClick(InvertTag, None)).windows.value;
      w.invertShown && w.invertRect == Rect(100.0, 100.0, 400.0, 300.0) && w.invertRect != v.windows.value.invertRect
  {
  }

  /**
   * ColorPreset_Click as evidently intended: geometry is copied only when the
   * mode actually changes, from the window of the mode being left to the window
   * of the mode being entered.
   */
  function IntendedPresetStep(v: PanelView, tag: string, parsed: Option<Argb>): (r: PanelView)
    // a switch between modes behaves exactly as the code does
    ensures v.invertMode != (tag == InvertTag) ==> r == PresetStep(v, tag, parsed)
    // a preset of the current mode moves neither window
    ensures v.invertMode == (tag == InvertTag) && v.windows.Some? ==>
      r.windows.Some? &&
      r.windows.value.tintRect == v.windows.value.tintRect &&
      r.windows.value.invertRect == v.windows.value.invertRect
    // and the mode invariant is kept
    ensures ModeConsistent(v) ==> ModeConsistent(r)
  {
    if v.invertMode != (tag == InvertTag) then PresetStep(v, tag, parsed)
    else PresetStep(v.(checked := false), tag, parsed).(checked := v.checked,
      windows := match PresetStep(v.(checked := false), tag, parsed).windows
        case None => None
        case Some(w) => Some(
          if !v.checked then w
          else if tag == InvertTag then w.(invertShown := true)
          else w.(tintShown := true)))
  }

  /** The parts of ControlPanel_Loaded's world the panel does not decide: the XAML geometry and colour of each window and the style words Windows gives them. */
  datatype WindowDefaults = WindowDefaults(
    tintRect: Rect, tintBackground: Argb, tintStyle: bv32,
    invertRect: Rect, invertStyle: bv32, gripStyle: bv32)

  /** The control panel with the two overlay windows it owns. */
  class ControlPanel {
    var overlay: OverlayWindow?
    var invert: InvertWindow?
    var isInvertMode: bool
    var checked: bool
    var toggleText: string
    var sliderEnabled: bool
    var sliderValue: real
    var opacityText: OpacityText
    ghost var Repr: set<object>

    predicate HasWindows()
      reads this
    {
      overlay != null && invert != null
    }

    ghost predicate Valid()
      reads this, Repr
    {
      this in Repr &&
      (overlay == null <==> invert == null) &&
      (HasWindows() ==>
        overlay in Repr && invert in Repr &&
        overlay.Repr <= Repr && invert.Repr <= Repr &&
        this !in overlay.Repr && this !in invert.Repr &&
        overlay.Repr !! invert.Repr &&
        overlay.Valid() && invert.Valid() &&
        // the tint window is shown at load, so its grips exist from then on; the
        // invert window's exist once it has been shown
        overlay.HasGrips() && (invert.visible ==> invert.HasGrips()))
    }

    /** The two windows as a value. */
    function Wins(): Windows
      reads this, overlay, invert
      requires HasWindows()
    {
      Windows(overlay.visible, invert.visible, overlay.Bounds(), invert.Bounds(), overlay.color)
    }

    /** The panel's state as a value. */
    function View(): PanelView
      reads this, overlay, invert
    {
      PanelView(isInvertMode, checked, toggleText, sliderEnabled, sliderValue, opacityText,
        if HasWindows() then Some(Wins()) else None)
    }

    /** Whether the invert window's capture timer is running. */
    predicate Capturing()
      reads this, invert
    {
      invert != null && invert.timerRunning
    }

    /**
     * The screen is captured only while the invert window is shown, and so,
     * as long as a shown window belongs to the current mode, only in invert
     * mode.
     */
    lemma CaptureOnlyInInvertMode()
      requires Valid()
      ensures Capturing() ==> View().windows.Some? && View().windows.value.invertShown
      ensures Capturing() && ModeConsistent(View()) ==> isInvertMode
    {
    }

    /** A new panel with the control values its XAML gives it, in tint mode and without windows. */
    constructor (checked: bool, toggleText: string, sliderEnabled: bool, sliderValue: real, opacityText: OpacityText)
      ensures Valid() && fresh(Repr)
      ensures View() == PanelView(false, checked, toggleText, sliderEnabled, sliderValue, opacityText, None)
    {
      overlay, invert := null, null;
      isInvertMode := false;
      this.checked, this.toggleText := checked, toggleText;
      this.sliderEnabled, this.sliderValue, this.opacityText := sliderEnabled, sliderValue, opacityText;
      Repr := {this};
    }

    /**
     * ControlPanel_Loaded: the tint window is made and shown, the invert window
     * is made and left hidden, and the tint takes the slider's value over 100
     * as its opacity.
     */
    method OnLoaded(d: WindowDefaults)
      requires Valid() && !HasWindows()
      modifies this`overlay, this`invert, this`Repr
      ensures Valid() && HasWindows() && fresh(Repr - {this})
      ensures View() == LoadedView(old(View()), d.tintRect, d.tintBackground, d.invertRect)
    {
      var o, w := MakeWindows(d, sliderValue / 100.0);
      overlay, invert := o, w;
      Repr := {this} + o.Repr + w.Repr;
    }

    /** `_overlayWindow.Show()`. */
    method ShowTint()
      requires Valid() && HasWindows()
      modifies overlay.Repr, this`Repr
      ensures Valid() && HasWindows() && fresh(Repr - old(Repr))
      ensures Wins() == old(Wins()).(tintShown := true)
    {
      overlay.Show();
      Repr := Repr + overlay.Repr;
    }

    /** `_invertWindow.Show()`. */
    method ShowInvert()
      requires Valid() && HasWindows()
      modifies invert.Repr, this`Repr
      ensures Valid() && HasWindows() && fresh(Repr - old(Repr))
      ensures Wins() == old(Wins()).(invertShown := true)
    {
      invert.Show();
      Repr := Repr + invert.Repr;
    }

    /** `_overlayWindow.Hide()`. */
    method HideTint()
      requires Valid() && HasWindows()
      modifies overlay.Repr
      ensures Valid() && HasWindows()
      ensures Wins() == old(Wins()).(tintShown := false)
    {
      overlay.Hide();
    }

    /** `_invertWindow.Hide()`. */
    method HideInvert()
      requires Valid() && HasWindows()
      modifies invert.Repr
      ensures Valid() && HasWindows()
      ensures Wins() == old(Wins()).(invertShown := false)
    {
      invert.Hide();
    }

    /** The four property sets that give the invert window the tint window's Left, Top, Width and Height. */
    method SyncInvertToTint()
      requires Valid() && HasWindows()
      modifies invert.Repr
      ensures Valid() && HasWindows()
      ensures Wins() == old(Wins()).(invertRect := old(Wins()).tintRect)
    {
      invert.SetBounds(overlay.Bounds());
    }

    /** The four property sets that give the tint window the invert window's Left, Top, Width and Height. */
    method SyncTintToInvert()
      requires Valid() && HasWindows()
      modifies overlay.Repr
      ensures Valid() && HasWindows()
      ensures Wins() == old(Wins()).(tintRect := old(Wins()).invertRect)
    {
      overlay.SetBounds(invert.Bounds());
    }

    /** `_overlayWindow.SetOverlayColor(c)`: the tint takes the colour's RGB and keeps its alpha. */
    method SetTintColor(c: Argb)
      requires Valid() && HasWindows()
      modifies overlay`color
      ensures Valid() && HasWindows()
      ensures Wins() == old(Wins()).(tint := WithColor(old(Wins()).tint, c))
    {
      overlay.SetOverlayColor(c);
    }

    /** OnOverlayHiddenByGrip. */
    method OnOverlayHiddenByGrip()
      requires Valid()
      modifies this`checked, this`toggleText
      ensures Valid()
      ensures View() == HiddenByGrip(old(View()))
    {
      checked := false;
      toggleText := ShowText;
    }

    /** A click on the toggle button: IsChecked flips, then ToggleOverlay_Click runs. */
    method ToggleOverlayClick()
      requires Valid()
      modifies Repr
      ensures Valid() && fresh(Repr - old(Repr))
      ensures View() == ToggleStep(old(View()))
      ensures !checked ==> !Capturing()
    {
      checked := !checked;
      if checked {
        if HasWindows() {
          if isInvertMode {
            ShowInvert();
          } else {
            ShowTint();
          }
        }
        toggleText := HideText;
      } else {
        if HasWindows() {
          HideTint();
          HideInvert();
        }
        toggleText := ShowText;
      }
    }

    /** OpacitySlider_ValueChanged, after the slider has moved to `value`. */
    method OpacitySliderValueChanged(value: real)
      requires Valid()
      modifies this`sliderValue, this`opacityText, {overlay}`color
      ensures Valid()
      ensures View() == SliderStep(old(View()), value)
    {
      sliderValue := value;
      if overlay == null {
        return;
      }
      var percentage := Truncate(value);
      opacityText := Percent(percentage);
      overlay.SetOverlayOpacity(percentage as real / 100.0);
    }

    /** ColorPreset_Click for a button whose Tag is `tag`; `parsed` is what ColorConverter makes of it. */
    method ColorPresetClick(tag: string, parsed: Option<Argb>)
      requires Valid()
      modifies Repr
      ensures Valid() && fresh(Repr - old(Repr))
      ensures View() == PresetStep(old(View()), tag, parsed)
      ensures tag != InvertTag ==> !Capturing()
    {
      if tag == InvertTag {
        InvertPresetClick();
      } else {
        ColourPresetClick(if parsed.Some? then parsed.value else Black);
      }
    }

    /** The INVERT branch of ColorPreset_Click. */
    method InvertPresetClick()
      requires Valid()
      modifies Repr
      ensures Valid() && fresh(Repr - old(Repr))
      ensures View() == PresetStep(old(View()), InvertTag, None)
    {
      isInvertMode := true;
      if HasWindows() {
        InvertWindows();
      }
      sliderEnabled := false;
      opacityText := NotApplicable;
    }

    /** What the INVERT branch does to the windows. */
    method InvertWindows()
      requires Valid() && HasWindows()
      modifies Repr - {this}, this`Repr
      ensures Valid() && HasWindows() && fresh(Repr - old(Repr))
      ensures Some(Wins()) == PresetStep(old(View()), InvertTag, None).windows
    {
      HideTint();
      if checked {
        SyncInvertToTint();
        ShowInvert();
      }
    }

    /** What the colour branch does to the windows. */
    method ColourWindows(c: Argb)
      requires Valid() && HasWindows()
      modifies Repr - {this}, this`Repr
      ensures Valid() && HasWindows() && fresh(Repr - old(Repr))
      ensures Some(Wins()) == PresetStep(old(View()), "", Some(c)).windows
      ensures !Capturing()
    {
      HideInvert();
      if checked {
        SyncTintToInvert();
        ShowTint();
      }
      SetTintColor(c);
    }

    /** The colour branch of ColorPreset_Click, with the colour the Tag parses to (Black when it does not). */
    method ColourPresetClick(c: Argb)
      requires Valid()
      modifies Repr
      ensures Valid() && fresh(Repr - old(Repr))
      ensures View() == PresetStep(old(View()), "", Some(c))
      ensures !Capturing()
    {
      isInvertMode := false;
      if HasWindows() {
        ColourWindows(c);
      }
      sliderEnabled := true;
      opacityText := Percent(Truncate(sliderValue));
    }

    /**
     * Left-button input to a grip of the tint window. A drag moves or resizes
     * the window; a press on the close grip hides it, and the panel unchecks
     * its toggle.
     */
    method TintGripInput(kind: GripType, input: Input) returns (closed: bool)
      requires Valid() && HasWindows() && overlay.HasGrips()
      modifies overlay.Repr, this`checked, this`toggleText
      ensures Valid() && HasWindows()
      ensures overlay.Bounds() == DragStep(kind, old(overlay.Bounds()), old(overlay.GripOf(kind).State()), input).0
      ensures closed <==> kind == Close && input.Press?
      ensures View() == GripStep(old(View()), false, overlay.Bounds(), closed)
    {
      closed := overlay.GripInput(kind, input);
      if closed {
        OnOverlayHiddenByGrip();
      }
    }

    /** Left-button input to a grip of the invert window, as for the tint window. */
    method InvertGripInput(kind: GripType, input: Input) returns (closed: bool)
      requires Valid() && HasWindows() && invert.HasGrips()
      modifies invert.Repr, this`checked, this`toggleText
      ensures Valid() && HasWindows()
      ensures invert.Bounds() == DragStep(kind, old(invert.Bounds()), old(invert.GripOf(kind).State()), input).0
      ensures closed <==> kind == Close && input.Press?
      ensures View() == GripStep(old(View()), true, invert.Bounds(), closed)
      ensures closed ==> !Capturing()
    {
      closed := invert.GripInput(kind, input);
      if closed {
        OnOverlayHiddenByGrip();
      }
    }
  }

  /**
   * The window work of ControlPanel_Loaded: a tint window made and shown, an
   * invert window made and left hidden, and the tint window's opacity set.
   */
  method MakeWindows(d: WindowDefaults, opacity: real) returns (o: OverlayWindow, w: InvertWindow)
    ensures fresh(o.Repr) && fresh(w.Repr) && o.Repr !! w.Repr
    ensures o.Valid() && w.Valid() && o.HasGrips()
    ensures o.visible && o.Bounds() == d.tintRect && o.color == WithOpacity(d.tintBackground, opacity)
    ensures !w.visible && w.Bounds() == d.invertRect
  {
    o := new OverlayWindow(d.tintRect, d.tintBackground, d.tintStyle, d.gripStyle);
    o.Show();
    w := new InvertWindow(d.invertRect, d.invertStyle, d.gripStyle);
    o.SetOverlayOpacity(opacity);
  }
}
