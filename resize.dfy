/**
 * The drag-to-resize arithmetic of the 12_imgui stage, shared by its
 * window widget (12_imgui/src/ui/window.rs:195-226) and by the window
 * objects its manager drives (12_imgui/src/ui.rs:168-199). On each axis a
 * window is a span: where it starts and how long it is. Dragging an edge
 * puts it at the cursor minus the gap recorded when the edge was grabbed,
 * but never lets the span fall below a floor.
 */
module Resize {
  /** An interval on one axis. */
  datatype Span = Span(start: real, extent: real)
  {
    function End(): real
    {
      start + extent
    }
  }

  /**
   * Dragging the start edge (top or left) of span `s` with the cursor at `c`
   * and grab gap `g`: the edge goes to `c - g` and the end stays put; if
   * that would leave less than `floor`, the span is `floor` long and its end
   * still stays put.
   */
  function DragStart(s: Span, c: real, g: real, floor: real): (r: Span)
    ensures r.End() == s.End()
    ensures r.extent >= floor && r.extent >= s.End() - (c - g)
    ensures r.extent == floor || r.start == c - g
  {
    var e := s.extent - (c - s.start - g);
    if floor < e then Span(c - g, e) else Span(s.start + s.extent - floor, floor)
  }

  /**
   * Dragging the end edge (right or bottom) of a span starting at `start`
   * with the cursor at `c` and grab gap `g`: the span reaches to `c + g`,
   * but is never shorter than `floor`; that is, it is the larger of the two.
   */
  function DragEnd(start: real, c: real, g: real, floor: real): (r: real)
    ensures r >= floor && r >= c + g - start
    ensures r == floor || r == c + g - start
  {
    if floor < c - start + g then c - start + g else floor
  }

  /**
   * Grabbing the start edge records the gap `c - start`; a drag with the
   * cursor still there leaves a span longer than the floor as it was.
   */
  lemma DragStartAtGrab(s: Span, c: real, floor: real)
    requires floor < s.extent
    ensures DragStart(s, c, c - s.start, floor) == s
  {
  }

  /**
   * Grabbing the end edge records the gap `end - c`; a drag with the cursor
   * still there leaves a span longer than the floor as it was.
   */
  lemma DragEndAtGrab(s: Span, c: real, floor: real)
    requires floor < s.extent
    ensures DragEnd(s.start, c, s.End() - c, floor) == s.extent
  {
  }

  /** A drag of the start edge that stays clear of the floor moves the edge by exactly the cursor's move. */
  lemma DragStartFollowsCursor(s: Span, c: real, c': real, g: real, floor: real)
    requires floor < s.End() - (c - g) && floor < s.End() - (c' - g)
    ensures DragStart(s, c', g, floor).start - DragStart(s, c, g, floor).start == c' - c
  {
  }
}
