# NiceToEyes in Dafny

NiceToEyes is a small Windows tray utility that lays a screen filter over a chosen part of the
screen. The filter is one of two kinds:

- **Tint mode.** A click-through, semi-transparent coloured window sits over the region. This is
  the *tint window*, `OverlayWindow`.
- **Invert mode.** A window shows a colour-inverted copy of the screen beneath it, refreshed about
  30 times a second. This is the *invert window*, `InvertWindow`.

Each filter window carries three small *grip* windows (`GripWindow`) on its corners: move (top
left), close (top right) and resize (bottom right). A control panel (`ControlPanel`) decides:

- which window is shown;
- whether the filter is on;
- the tint's colour and opacity.

An icon generator writes the application's multi-size `.ico` file.

This project models those parts. Each module follows one source file:

| module | file | models |
|---|---|---|
| `Basics` | `basics.dfy` | bytes, `Option`, and C#'s truncating `(int)` cast |
| `WindowStyle` | `window_style.dfy` | the extended-style flags the windows OR into their style word, and the capture-exclusion affinity |
| `Grip` | `grip.dfy` | `GripWindow` |
| `Geometry` | `geometry.dfy` | window rectangles and the grips' drag handlers |
| `Tint` | `tint.dfy` | `OverlayWindow` |
| `Invert` | `invert.dfy` | `InvertWindow` |
| `Panel` | `panel.dfy` | `ControlPanel`'s mode coordinator |
| `Ico` | `ico.dfy` | `IconGenerator.SaveAsIco` and `SaveMultiSizeIcon` |

**Grip.** `GripWindow`'s drag protocol is a pure step function (`Grip.Step`) over the fields
`_isDragging` and `_dragStart`, together with a class `Grip.GripWindow` whose `HandleInput` follows
that function:

- a press starts a drag and records where it happened;
- each move while the grip is held reports the pointer's offset from that press point;
- a release ends the drag;
- a close grip only reports a close request.

**Tint and invert windows.** `Tint.OverlayWindow` and `Invert.InvertWindow` are classes whose
fields are the window's:

- geometry, visibility, extended style and tint colour;
- three grips;
- for the invert window only: display affinity, capture timer and the image it shows.

Their methods are the source's `Show`, `Hide`, the `Loaded` handler (`OnLoaded`),
`CreateGripWindows`, `UpdateGripPositions`, `SetGripsVisible`, opacity and colour setters and
getters, grip handlers and timer tick. Each window has an invariant `Valid()`:

- each grip sits on its corner of the window;
- once the invert window has loaded, its capture timer runs exactly while the window is shown.

`Show`, `Hide`, `OnLoaded`, the setters, the grip handlers and the timer tick keep it.
`UpdateGripPositions`, `CreateGripWindows` and the other steps they are built from are what
restore it, so they do not assume it. The getters change nothing.

**Pixel inversion.** The inversion is an in-place loop over an `array<byte>`
(`Invert.InvertBitmapColors`), proved against the pure `Invert.InvertPixels`.

**Control panel.** `Panel.ControlPanel` owns both windows, and each handler is proved against a
pure step on `Panel.PanelView`. Its invariant also says that the grips a user drags exist: the tint
window's from load on, and the invert window's whenever it is shown. `PanelView` is what the user can observe:

- the mode;
- the toggle button;
- the slider and its label;
- both windows' visibility, geometry and tint.

**Icon file.** The writer is a method with the source's three loops, proved equal to a
byte-level layout function `Ico.IcoFile`. A reader function shows that every image can be found
again through the directory.

Quantities are modelled as follows:

- WPF `double` values are `real`.
- Colour bytes and file bytes are `Basics.byte`.
- Window style words are `bv32`.
- A value written as `(short)` or `int` keeps only its low 16 or 32 bits: the encoders `Ico.LE16`
  and `Ico.LE32` write exactly those.

Some inputs come from the window system, the screen or the encoders. Each is a parameter:

- the style word Windows gives a new window;
- the XAML initial geometry and colours (`Panel.WindowDefaults`);
- the result of a screen capture (`Invert.Capture`);
- the PNG encoding of a bitmap (`Ico.Image.png`);
- what `ColorConverter` makes of a preset's tag.

## Model

| member | source | states |
|---|---|---|
| Basics.Truncate | InvertWindow.xaml.cs:133-136 | `(int)` of a double truncates toward zero: the result is within one of the argument, on its side of zero |
| WindowStyle.Applied | OverlayWindow.xaml.cs:44-45 | OR-ing flags into a style word keeps every bit that was set and sets every requested flag |
| Grip.Step | GripWindow.xaml.cs:172-194 | a drag is raised exactly for a move while a move/resize grip is held, and it is the offset from the press point; a close request is raised exactly for a press on a close grip; only a press starts a drag, and every press on a move/resize grip starts one at the press point from any state, raising nothing; a release ends it and keeps the press point; a close grip's drag fields never change |
| Grip.Run | GripWindow.xaml.cs:172-194 | a sequence of inputs raises exactly one event per input |
| Grip.ReleaseEndsDrag | GripWindow.xaml.cs:179-183 | whatever came before, a session on a move/resize grip that ends with a release leaves the grip idle |
| Grip.Moves | GripWindow.xaml.cs:185-194 | the pointer moving through the given points is one move input per point, in order |
| Grip.GripWindow.PlaceAt | OverlayWindow.xaml.cs:92-108 | setting a grip's Left and Top puts it at the given point |
| Grip.GripWindow.Hide | OverlayWindow.xaml.cs:183-189 | hiding a grip makes it invisible |
| Grip.HeldMovesAreCumulative | GripWindow.xaml.cs:185-194 | while held, every move reports its offset from the original press point, never from the previous move, and the press point stays put |
| Grip.PressThenMoves | GripWindow.xaml.cs:172-194 | a press followed by moves raises nothing for the press and then the offset of each move from the press point |
| Grip.ReleasedMovesAreQuiet | GripWindow.xaml.cs:179-187 | once released, a grip raises nothing however the pointer moves, and its fields stay as they were |
| Grip.CloseGripOnlyCloses | GripWindow.xaml.cs:138-168 | a close grip raises a close request for every press and nothing else, and never starts a drag |
| Grip.GripWindow.constructor | GripWindow.xaml.cs:41-63 | a new grip is 40 pixels square for a move grip and 36 otherwise, idle, hidden and not yet loaded |
| Grip.GripWindow.OnLoaded | GripWindow.xaml.cs:49-54 | the Loaded handler makes the grip a tool window and keeps every other style bit |
| Grip.GripWindow.Show | GripWindow.xaml.cs:45-54 | showing a grip makes it visible; the first Show runs the Loaded handler, later ones leave the style alone |
| Grip.GripWindow.HandleInput | GripWindow.xaml.cs:172-194 | the grip's drag fields and the event it raises are those of `Step` |
| Grip.ShownGrip | OverlayWindow.xaml.cs:54-60 | a grip created and shown by CreateGripWindows is new, visible, loaded, idle and of the requested kind |
| Geometry.Translated | OverlayWindow.xaml.cs:55-59 | the move handler shifts the window by exactly the drag offset and keeps its size |
| Geometry.Resized | OverlayWindow.xaml.cs:73-79 | the resize handler keeps the top-left corner, adds the offset to the size and never leaves a side below 50 |
| Geometry.GripsOnCorners | OverlayWindow.xaml.cs:90-109 | UpdateGripPositions puts the move grip on the top-left corner, the close grip flush with the top-right corner and the resize grip flush with the bottom-right corner; in a window at least 40 pixels on each side every grip lies inside the window |
| Geometry.GripAnchors | OverlayWindow.xaml.cs:90-109 | the move grip's corner is the window's top-left corner, the close grip's right edge and top are the window's, the resize grip's right and bottom edges are the window's |
| Geometry.DragStep | OverlayWindow.xaml.cs:51-83 | only a move while a move/resize grip is held changes the window; a held move grip puts the window's corner at the pointer less the press point in the grip, keeping the size; a held resize grip sets the size so the bottom-right corner follows the pointer the same way, never below 50; a press starts a drag from where it landed in the grip; a release ends it |
| Geometry.MoveDragTracks | OverlayWindow.xaml.cs:54-60 | during a move drag, whatever moves come, the window stays the starting window shifted by the pointer's last offset from the press |
| Geometry.MoveDragFollowsPointer | OverlayWindow.xaml.cs:54-60 | pressing the move grip and moving the pointer leaves the window shifted by exactly how far the pointer has travelled, even though the grip moves with the window |
| Geometry.ResizeDragTracks | OverlayWindow.xaml.cs:72-80 | during a resize drag, from any window with the starting corner, the window is always the starting window resized by the pointer's last offset from the press |
| Geometry.ResizeDragFollowsPointer | OverlayWindow.xaml.cs:72-80 | pressing the resize grip and moving the pointer at least once leaves the window's size equal to the starting size plus how far the pointer has travelled, never below 50, with the corner kept; the press alone changes nothing, whatever the window's size |
| Tint.Clamp01 | OverlayWindow.xaml.cs:141 | the clamp lies in [0, 1] and leaves a value already inside unchanged |
| Tint.AlphaFor | OverlayWindow.xaml.cs:141-144 | the alpha byte is the clamped opacity times 255, truncated: 0 at or below 0, 255 at or above 1 |
| Tint.OpacityOf | OverlayWindow.xaml.cs:166-170 | the opacity read back is in [0, 1] |
| Tint.WithOpacity | OverlayWindow.xaml.cs:139-148 | setting the opacity keeps red, green and blue, and the opacity read back is within 1/255 below the clamped request |
| Tint.WithColor | OverlayWindow.xaml.cs:153-161 | setting the colour takes its red, green and blue and keeps the current opacity |
| Tint.OpacityRoundTrip | OverlayWindow.xaml.cs:139-170 | an opacity that is a whole number of 255ths reads back exactly |
| Tint.OverlayWindow.constructor | OverlayWindow.xaml.cs:30-37 | a new tint window has the given geometry, colour and style, is hidden and has no grips yet |
| Tint.OverlayWindow.UpdateGripPositions | OverlayWindow.xaml.cs:90-109 | afterwards every grip sits on its corner of the window |
| Tint.OverlayWindow.OnLoaded | OverlayWindow.xaml.cs:39-49 | the Loaded handler ORs in tool window, click-through and layered, and creates three new visible idle grips on the corners; geometry and colour are unchanged |
| Tint.OverlayWindow.CreateGripWindows | OverlayWindow.xaml.cs:51-83 | three new grips (move, close, resize) are created, shown and placed on the corners |
| Tint.OverlayWindow.Show | OverlayWindow.xaml.cs:194-201 | the window and all three grips become visible and stay on the corners; the first Show creates the grips and sets the style, a later one keeps grips, drag states and style |
| Tint.OverlayWindow.Hide | OverlayWindow.xaml.cs:183-189 | the window and all three grips become hidden; nothing else changes |
| Tint.OverlayWindow.SetGripsVisible | OverlayWindow.xaml.cs:121-134 | the move and resize grips are shown or hidden as asked; the close grip and the window are untouched |
| Tint.OverlayWindow.SetOverlayOpacity | OverlayWindow.xaml.cs:139-148 | the colour becomes `WithOpacity` of the old colour |
| Tint.OverlayWindow.SetOverlayColor | OverlayWindow.xaml.cs:153-161 | the colour becomes `WithColor` of the old colour |
| Tint.OverlayWindow.GetOverlayOpacity | OverlayWindow.xaml.cs:166-170 | returns the alpha byte as a fraction of 255 |
| Tint.OverlayWindow.GetOverlayColor | OverlayWindow.xaml.cs:175-178 | returns the current colour |
| Tint.OverlayWindow.SetBounds | OverlayWindow.xaml.cs:85-109 | setting Left, Top, Width and Height re-pins the grips; nothing else changes |
| Tint.OverlayWindow.MoveGripInput | OverlayWindow.xaml.cs:54-59 | input to the move grip changes the window and the grip's drag fields as `DragStep` says, and the grips stay on the corners |
| Tint.OverlayWindow.ResizeGripInput | OverlayWindow.xaml.cs:72-79 | input to the resize grip changes the window and the grip's drag fields as `DragStep` says, and the grips stay on the corners |
| Tint.OverlayWindow.CloseGripInput | OverlayWindow.xaml.cs:63-68 | a press on the close grip hides the window and all grips and is reported; any other input changes nothing |
| Tint.OverlayWindow.GripInput | OverlayWindow.xaml.cs:51-83 | input to any grip follows `DragStep` for that grip, leaves the other grips' drag fields alone, and hides everything exactly when it is a press on the close grip |
| Tint.OverlayWindow.OnMoveDrag | OverlayWindow.xaml.cs:55-59 | the window becomes `Translated` by the offset and the grips are re-pinned |
| Tint.OverlayWindow.OnResizeDrag | OverlayWindow.xaml.cs:73-79 | the window becomes `Resized` by the offset and the grips are re-pinned |
| Invert.InvertPixels | InvertWindow.xaml.cs:194-201 | the inverted buffer is as long as the original (what each byte becomes is `InvertPixelsAt`) |
| Invert.DeviceBounds | InvertWindow.xaml.cs:129-136 | each device coordinate is the logical one times the DPI factor, cut toward zero; a window of non-negative size keeps a non-negative device size |
| Invert.InvertPixelsAt | InvertWindow.xaml.cs:194-201 | byte k of the inverted buffer is 255 minus byte k, except an alpha byte (offset 3 of its pixel), which is kept |
| Invert.PixelInverted | InvertWindow.xaml.cs:196-200 | in every pixel blue, green and red are complemented and alpha is kept |
| Invert.InvertPixelsInvolution | InvertWindow.xaml.cs:194-201 | inverting twice gives back the original buffer |
| Invert.InvertPixelsAppend | InvertWindow.xaml.cs:194-201 | inversion works pixel by pixel: inverting a concatenation inverts each part |
| Invert.InvertBitmapColors | InvertWindow.xaml.cs:184-207 | the in-place loop leaves the first `abs(stride) * height` bytes inverted and every later byte of the buffer untouched |
| Invert.TickImage | InvertWindow.xaml.cs:121-179 | without a presentation source, with an empty device rectangle, or when the capture throws, the shown image is kept; otherwise the new image covers the truncated device rectangle, and inverting it gives back exactly the captured bytes |
| Invert.InvertedCopy | InvertWindow.xaml.cs:141-155 | a bitmap `w` pixels wide and `h` high, inverted in place, holds `InvertPixels` of its original bytes |
| Invert.InvertWindow.constructor | InvertWindow.xaml.cs:51-58 | a new invert window has the given geometry and style, is hidden, has no timer, no grips and no image |
| Invert.InvertWindow.UpdateGripPositions | InvertWindow.xaml.cs:214-233 | afterwards every grip sits on its corner of the window |
| Invert.InvertWindow.OnLoaded | InvertWindow.xaml.cs:60-80 | the Loaded handler ORs in the three style flags, excludes the window from capture, creates three visible idle grips and starts a 33 ms timer |
| Invert.InvertWindow.HideFromCapture | InvertWindow.xaml.cs:65-69 | the style gets tool window, click-through and layered, and the display affinity becomes exclude-from-capture |
| Invert.InvertWindow.StartTimer | InvertWindow.xaml.cs:74-79 | a timer with a 33 ms interval exists and runs |
| Invert.InvertWindow.CreateGripWindows | InvertWindow.xaml.cs:82-114 | three new grips (move, close, resize) are created, shown and placed on the corners |
| Invert.InvertWindow.Show | InvertWindow.xaml.cs:252-260 | the window and all grips become visible and the timer runs; the first Show performs the Loaded work, a later one keeps grips, style and affinity; the image is untouched |
| Invert.InvertWindow.ShowLoaded | InvertWindow.xaml.cs:252-260 | on a loaded window Show makes the window and all grips visible and restarts the timer, changing nothing else |
| Invert.InvertWindow.ShowGrips | InvertWindow.xaml.cs:255-259 | the three grips are shown and re-pinned to the corners |
| Invert.InvertWindow.Hide | InvertWindow.xaml.cs:243-250 | the window and all grips become hidden and the timer stops; nothing else changes |
| Invert.InvertWindow.SetBounds | InvertWindow.xaml.cs:209-233 | setting Left, Top, Width and Height re-pins the grips |
| Invert.InvertWindow.Tick | InvertWindow.xaml.cs:116-119 | a tick of a running timer replaces the image with `TickImage`; a stopped timer changes nothing |
| Invert.InvertWindow.CaptureAndInvert | InvertWindow.xaml.cs:121-179 | the shown image becomes `TickImage` of the old image, the window's geometry and the capture |
| Invert.InvertWindow.MoveGripInput | InvertWindow.xaml.cs:85-91 | input to the move grip changes the window and the grip as `DragStep` says, and the grips stay on the corners |
| Invert.InvertWindow.ResizeGripInput | InvertWindow.xaml.cs:103-111 | input to the resize grip changes the window and the grip as `DragStep` says, and the grips stay on the corners |
| Invert.InvertWindow.CloseGripInput | InvertWindow.xaml.cs:94-100 | a press on the close grip hides the window and grips, stops the timer and is reported; any other input changes nothing |
| Invert.InvertWindow.GripInput | InvertWindow.xaml.cs:82-114 | input to any grip follows `DragStep`, leaves the other grips' drag fields alone, and hides everything and stops the timer exactly when it is a press on the close grip |
| Invert.InvertWindow.OnMoveDrag | InvertWindow.xaml.cs:86-90 | the window becomes `Translated` by the offset and the grips are re-pinned |
| Invert.InvertWindow.OnResizeDrag | InvertWindow.xaml.cs:104-110 | the window becomes `Resized` by the offset and the grips are re-pinned |
| Panel.HiddenByGrip | ControlPanel.xaml.cs:147-152 | the toggle is unchecked and offers to show the overlay; the mode, slider and windows are untouched |
| Panel.ToggleStep | ControlPanel.xaml.cs:154-174 | the toggle flips and its text follows; unchecking hides both windows, checking shows the current mode's window and leaves the other as it was; nothing moves and the tint is kept |
| Panel.PresetStep | ControlPanel.xaml.cs:185-246 | the tag alone decides the mode, the slider is usable exactly in tint mode and reads "N/A" or the truncated percentage; the other mode's window is hidden; with the filter on, the chosen mode's window is shown where the other was, and with it off nothing moves or appears; a colour preset sets the tint's red, green and blue (Black for a tag that does not parse) and keeps its opacity |
| Panel.SliderStep | ControlPanel.xaml.cs:176-183 | the slider takes the value; once the windows exist the label shows the truncated percentage and only the tint's alpha changes, to that percentage rounded down to a multiple of 1/255 |
| Panel.GripStep | ControlPanel.xaml.cs:136-152 | the grip's window ends at the new geometry and is hidden exactly when its close grip was pressed, which also unchecks the toggle; the other window, the tint, the mode and the slider are untouched |
| Panel.LoadedView | ControlPanel.xaml.cs:132-145 | the tint window is shown at its initial geometry with its colour and the slider's value as opacity, the invert window hidden at its own; in tint mode the shown window belongs to the mode |
| Panel.StepKeepsToggleLabelled | ControlPanel.xaml.cs:147-174 | every handler keeps the toggle's text in step with its state: "Hide Overlay" while checked, "Show Overlay" while not |
| Panel.StepKeepsModeConsistent | ControlPanel.xaml.cs:147-246 | no handler shows a window of the other mode |
| Panel.RunKeepsModeConsistent | ControlPanel.xaml.cs:147-246 | in any sequence of clicks, slider moves and grip actions, a shown window always belongs to the current mode |
| Panel.NeverBothShown | ControlPanel.xaml.cs:132-246 | after the panel has loaded, the tint and invert windows are never shown at the same time, whatever the user does |
| Panel.RunKeepsLoaded | ControlPanel.xaml.cs:132-145 | once made, the two windows are never dropped |
| Panel.InvertAndBackKeepsGeometry | ControlPanel.xaml.cs:189-229 | switching to invert mode and back with the filter on leaves both windows where the tint window was, with the tint window shown and the invert window hidden |
| Panel.ColourPresetInTintModeMovesTint | ControlPanel.xaml.cs:212-229 | as written, a colour preset clicked while already in tint mode moves the tint window onto the hidden invert window's stale geometry |
| Panel.InvertPresetInInvertModeMovesInvert | ControlPanel.xaml.cs:189-211 | as written, the INVERT preset clicked while already in invert mode moves the invert window onto the hidden tint window's stale geometry |
| Panel.IntendedPresetStep | ControlPanel.xaml.cs:189-229 | copying geometry only on a real mode switch behaves as the code on every switch, moves neither window for a preset of the current mode, and keeps the mode invariant |
| Panel.ControlPanel.CaptureOnlyInInvertMode | ControlPanel.xaml.cs:154-246 | the invert window's capture timer runs only while that window is shown, and so, while shown windows belong to the current mode, only in invert mode |
| Panel.ControlPanel.constructor | ControlPanel.xaml.cs:21-28 | a new panel is in tint mode, has no windows and shows the control values it is given |
| Panel.ControlPanel.OnLoaded | ControlPanel.xaml.cs:132-145 | the panel makes the tint window and shows it with the slider's opacity, and makes the invert window hidden |
| Panel.ControlPanel.ShowTint | ControlPanel.xaml.cs:164 | the tint window becomes shown and nothing else in the panel's view changes |
| Panel.ControlPanel.ShowInvert | ControlPanel.xaml.cs:160 | the invert window becomes shown and nothing else in the panel's view changes |
| Panel.ControlPanel.HideTint | ControlPanel.xaml.cs:170 | the tint window becomes hidden and nothing else in the panel's view changes |
| Panel.ControlPanel.HideInvert | ControlPanel.xaml.cs:171 | the invert window becomes hidden and nothing else in the panel's view changes |
| Panel.ControlPanel.SyncInvertToTint | ControlPanel.xaml.cs:200-203 | the invert window takes the tint window's geometry |
| Panel.ControlPanel.SyncTintToInvert | ControlPanel.xaml.cs:223-226 | the tint window takes the invert window's geometry |
| Panel.ControlPanel.SetTintColor | ControlPanel.xaml.cs:237-242 | the tint takes the colour's red, green and blue and keeps its opacity |
| Panel.ControlPanel.OnOverlayHiddenByGrip | ControlPanel.xaml.cs:147-152 | the toggle is unchecked and reads "Show Overlay" |
| Panel.ControlPanel.ToggleOverlayClick | ControlPanel.xaml.cs:154-174 | checking shows the current mode's window and labels the toggle "Hide Overlay"; unchecking hides both windows, stopping the screen capture, and labels it "Show Overlay" |
| Panel.ControlPanel.OpacitySliderValueChanged | ControlPanel.xaml.cs:176-183 | the view becomes `SliderStep` of the old one: the label shows the truncated percentage and only the tint's alpha changes, to that percentage rounded down to a multiple of 1/255; before the windows exist only the slider moves |
| Panel.ControlPanel.ColorPresetClick | ControlPanel.xaml.cs:185-246 | the panel's new view is `PresetStep` of the old one, and after a colour preset the screen is not being captured |
| Panel.ControlPanel.InvertPresetClick | ControlPanel.xaml.cs:189-211 | invert mode: the tint window is hidden; if the filter is on, the invert window takes the tint window's geometry and is shown; the slider is disabled and reads "N/A" |
| Panel.ControlPanel.InvertWindows | ControlPanel.xaml.cs:193-205 | the windows become what `PresetStep` makes of them for INVERT: the tint window hidden and, with the filter on, the invert window moved onto it and shown |
| Panel.ControlPanel.ColourWindows | ControlPanel.xaml.cs:216-242 | the windows become what `PresetStep` makes of them for a colour, and the screen capture is stopped |
| Panel.ControlPanel.ColourPresetClick | ControlPanel.xaml.cs:212-244 | tint mode: the invert window is hidden; if the filter is on, the tint window takes the invert window's geometry and is shown; the slider is enabled with its percentage, and the tint takes the colour; the screen capture is stopped |
| Panel.ControlPanel.TintGripInput | ControlPanel.xaml.cs:136-152 | grip input moves or resizes the tint window as `DragStep` says; a press on its close grip hides it and unchecks the toggle |
| Panel.ControlPanel.InvertGripInput | ControlPanel.xaml.cs:141-152 | grip input moves or resizes the invert window as `DragStep` says; a press on its close grip hides it, stops the screen capture and unchecks the toggle |
| Panel.MakeWindows | ControlPanel.xaml.cs:135-144 | two new, separate, well-formed windows: the tint window shown, with its grips, and the slider's opacity; the invert window hidden; both at their initial geometry |
| Ico.LE16RoundTrip | IconGenerator.cs:65-67 | a written `short` reads back as its low 16 bits |
| Ico.LE32RoundTrip | IconGenerator.cs:93-94 | a written `int` reads back as its low 32 bits, and a value in range reads back unchanged |
| Ico.Header | IconGenerator.cs:65-67 | the header is six bytes reading back as reserved 0, type 1 and the image count cut to 16 bits |
| Ico.Entry | IconGenerator.cs:87-94 | an entry is 16 bytes and starts with the width and height bytes, palette 0, reserved 0, one plane and 32 bits per pixel |
| Ico.Directory | IconGenerator.cs:82-97 | the directory holds 16 bytes per image |
| Ico.Blobs | IconGenerator.cs:100-103 | the data section is as long as all the images' PNG data together |
| Ico.IcoFile | IconGenerator.cs:59-104 | the file starts with the header and is 6 + 16 n bytes of header and directory plus the total data length |
| Ico.DimensionByte | IconGenerator.cs:87-88 | a width or height below 256 is written as itself, and 256 or more as 0 |
| Ico.SaveAsIco | IconGenerator.cs:59-104 | the bytes written are the header, then one entry per image with the running offset, then every image's data in order |
| Ico.WriteDirectory | IconGenerator.cs:79-97 | the entry loop writes the directory whose offsets start after header and directory and advance by each image's data length |
| Ico.EntryAt | IconGenerator.cs:82-97 | entry i of the directory records image i's size, length and the offset just past the data of the images before it |
| Ico.BlobsPrefix | IconGenerator.cs:100-103 | the data of the first j images is the start of the data section |
| Ico.BlobAt | IconGenerator.cs:100-103 | image i's data sits right after the data of the images before it |
| Ico.IcoLength | IconGenerator.cs:59-104 | the file is 6 + 16 n bytes of header and directory plus the total data length |
| Ico.IcoEntryAt | IconGenerator.cs:79-97 | entry i sits at byte 6 + 16 i of the file and records the offset of image i's data |
| Ico.IcoBlobAt | IconGenerator.cs:79-103 | image i's data sits in the file at exactly the offset its entry records |
| Ico.IcoCount | IconGenerator.cs:67 | the header's count field reads back as the number of images, cut to 16 bits |
| Ico.EntryFields | IconGenerator.cs:93-94 | an entry's length and offset fields read back as the values written when both fit in 32 bits |
| Ico.ReadBack | IconGenerator.cs:59-104 | a reader following the header and directory gets back every image's PNG data, when there are fewer than 65536 images and the file is under 4 GiB |
| Ico.SaveMultiSizeIcon | IconGenerator.cs:43-57 | the icon holds the moon drawn at 16, 32, 48 and 256 pixels, in that order |
| Ico.MoonImages | IconGenerator.cs:45-51 | four square bitmaps at sizes 16, 32, 48 and 256 |
| Ico.MultiSizeEntries | IconGenerator.cs:43-57 | the multi-size icon counts four images; the entries record 16, 32 and 48 as width and height, and 0 for the 256-pixel image |

## Left out

- MagnificationInterop.cs is not part of this model: it declares foreign Windows functions the
  core does not call.
- The tray icon and its menu, the window icon (`CreateMoonIcon`), `ControlPanel_StateChanged` and
  the `Closing`/`Closed` handlers are left out. They are shell integration and shutdown, and they
  do not affect the filter windows' geometry or modes.
- Moon drawing (`CreateMoonBitmap`) and PNG encoding are not modelled: each bitmap's PNG bytes are
  a given sequence. The file stream is modelled as the sequence of bytes written, and I/O errors
  are not modelled.
- The screen capture (GetDC, BitBlt, GDI bitmaps, `CreateBitmapSourceFromHBitmap`) is a `Capture`
  value. It says whether there is a presentation source, gives the DPI scale, and gives either the
  captured bytes or the exception that made the handler give up. BitBlt's result is ignored by
  the code, so a failed copy shows whatever the bitmap held, inverted. The model says the same,
  through the captured bytes.
- Basics.Truncate: doubles are `real`, so rounding of `Left * dpiX` and overflow of an `(int)` cast
  outside the 32-bit range are not modelled.
- Tint.AlphaFor: IEEE rounding of `opacity * 255` is not modelled; the product is exact.
- Window messages are not modelled:
  - the Loaded event, which WPF raises after the first `Show`, runs inside that `Show`;
  - `LocationChanged`/`SizeChanged`, which run UpdateGripPositions, run right after the property
    sets that raise them;
  - timer ticks are calls to `Tick`;
  - timing and re-entrancy are not modelled.
- Grip input is taken only once a window's grips exist, since a grip cannot receive input before
  it is created.
- Panel.ControlPanel.OpacitySliderValueChanged: the `OpacityValue == null` guard is not modelled,
  because the label always exists once the XAML has loaded.
- The XAML's initial values are parameters and are not fixed at the XAML's numbers:
  - the window geometry and colour;
  - the slider value;
  - the toggle state.
- Panel.ControlPanel.ColorPresetClick: a button without a string tag is not modelled (every preset
  button has one). A tag that ColorConverter rejects is modelled as the `Black` fallback.

## Findings

| source | as written | input that shows it | evidently intended | confidence | as-written member | corrected member |
|---|---|---|---|---|---|---|
| ControlPanel.xaml.cs:212-229 | Any non-INVERT preset copies the invert window's Left, Top, Width and Height onto the tint window whenever the filter is on. This happens even when the panel is already in tint mode, so the invert window has been hidden, and its geometry is stale. | Tint mode, filter on, tint window moved to (300, 200), invert window last at (100, 100); click a colour preset: the tint window jumps to (100, 100). | Geometry is carried over from the window that was visible, that is, only when the mode actually switches; a colour change in tint mode leaves the tint window where it is. | not executed | Panel.ColourPresetInTintModeMovesTint | Panel.IntendedPresetStep |
| ControlPanel.xaml.cs:189-211 | The INVERT preset copies the tint window's Left, Top, Width and Height onto the invert window whenever the filter is on. This happens even when the panel is already in invert mode, so the tint window has been hidden, and its geometry is stale. | Invert mode, filter on, invert window moved to (300, 200), tint window last at (100, 100); click INVERT: the invert window jumps to (100, 100). | Geometry is carried over only when the mode actually switches; INVERT in invert mode leaves the invert window where it is. | not executed | Panel.InvertPresetInInvertModeMovesInvert | Panel.IntendedPresetStep |
