/**
 * The viewport that pushMakeCurrent applies before a panel draws and that
 * popMakeCurrent resets.
 */
module Viewport {
  import opened Wrappers
  import opened Sdl

  datatype Insets = Insets(left: int, top: int, right: int, bottom: int)
  datatype Extents = Extents(x0: int, y0: int, x1: int, y1: int)

  /** What pushMakeCurrent asks of the panel: its insets, absolute extents and clip rectangle. */
  datatype PanelFrame = PanelFrame(insets: Insets, absExtents: Extents, clip: Extents)

  /**
   * The viewport for a panel in a window of `windowWide` by `windowTall`
   * pixels: it starts at the panel's absolute origin moved by its top-left
   * insets (when they are used) and runs to the window's bottom-right corner.
   */
  function ViewportFor(panel: PanelFrame, useInsets: bool, windowWide: int, windowTall: int): (v: Rect)
    ensures v.x == panel.absExtents.x0 + (if useInsets then panel.insets.left else 0)
    ensures v.y == panel.absExtents.y0 + (if useInsets then panel.insets.top else 0)
    ensures v.x + v.w == windowWide && v.y + v.h == windowTall
  {
    var insets := if useInsets then panel.insets else Insets(0, 0, 0, 0);
    var x := insets.left + panel.absExtents.x0;
    var y := insets.top + panel.absExtents.y0;
    Rect(x, y, windowWide - x, windowTall - y)
  }

  /** The SDL calls of pushMakeCurrent. */
  function PushCalls(panel: PanelFrame, useInsets: bool, windowWide: int, windowTall: int): (calls: seq<Call>)
    ensures |calls| == 2 && calls[0] == GetWindowSizeInPixels
    ensures calls[1] == SetRenderViewport(Some(ViewportFor(panel, useInsets, windowWide, windowTall)))
  {
    [GetWindowSizeInPixels, SetRenderViewport(Some(ViewportFor(panel, useInsets, windowWide, windowTall)))]
  }

  /** The clip rectangle is read but never used, and the insets only count when asked for. */
  lemma ViewportIgnoresClipAndUnusedInsets(panel: PanelFrame, clip: Extents, insets: Insets, useInsets: bool, w: int, h: int)
    ensures ViewportFor(panel.(clip := clip), useInsets, w, h) == ViewportFor(panel, useInsets, w, h)
    ensures !useInsets ==> ViewportFor(panel.(insets := insets), useInsets, w, h) == ViewportFor(panel, useInsets, w, h)
  {
  }
}
