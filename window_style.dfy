/**
 * The extended window-style word of a native window, and the flags the overlay
 * windows and their grips OR into it when they are loaded.
 */
module WindowStyle {

  /** Hides the window from the task bar and the Alt-Tab list. */
  const WS_EX_TOOLWINDOW: bv32 := 0x0000_0080
  /** Lets pointer input pass through the window to what lies beneath. */
  const WS_EX_TRANSPARENT: bv32 := 0x0000_0020
  /** A layered (per-pixel alpha) window. */
  const WS_EX_LAYERED: bv32 := 0x0008_0000

  /** What the tint and invert windows OR into their style: tool window, click-through, layered. */
  const OverlayFlags: bv32 := WS_EX_TOOLWINDOW | WS_EX_TRANSPARENT | WS_EX_LAYERED

  /** Display affinity that excludes a window from screen capture. */
  const WDA_EXCLUDEFROMCAPTURE: bv32 := 0x0000_0011

  /**
   * The style word after `SetWindowLong(h, GWL_EXSTYLE, GetWindowLong(h, GWL_EXSTYLE) | flags)`:
   * every bit that was set stays set and every requested bit is set.
   */
  function Applied(current: bv32, flags: bv32): (r: bv32)
    ensures r & current == current
    ensures r & flags == flags
  {
    current | flags
  }
}
