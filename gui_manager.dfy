/**
 * The window manager of the earlier GUI stage (12_gui/src/ui.rs): an ordered
 * list of windows (last = topmost, the focused one), the hovered and
 * previously hovered window indices, the cursor and the frame buffer.
 * Cursor motion drags or resizes the focused window by the cursor delta and
 * hit-tests the list from the top; the mouse button presses, raises and
 * releases windows. The windows themselves (12_gui/src/ui/window.rs) are not
 * part of this model: a window is the fields the manager reads and writes,
 * and every call the manager makes on it is recorded in `calls`.
 */
module GuiManager {
  import opened Common
  import opened HitTest
  import opened ChildList

  /** A call the manager makes on a window; what the window does with it is not modelled. */
  datatype Call =
    | CursorPos(x: real, y: real)  // `on_cursor_pos_event(x, y)`
    | MouseOn                      // `mouse_on()`
    | MouseOff                     // `mouse_off()`
    | MouseButton(down: bool)      // `on_mouse_down_event(down)`
    | MouseDown(at: Vec2)          // `mouse_down(cursor_pos)`
    | MouseUp                      // `mouse_up()`
    | Reshape                      // `reshape()`

  /**
   * A window as the manager sees it: position, size, frame width, ratio, the
   * drag flag and the four resize flags (top, right, bottom, left), and the
   * calls received so far.
   */
  datatype Window = Window(id: nat, pos: Vec2, size: Vec2, frameSize: real, ratio: Vec2,
                           moving: bool, sizing: seq<bool>, calls: seq<Call>)

  /** `w` after receiving `cs`. */
  function Tell(w: Window, cs: seq<Call>): (r: Window)
  {
    w.(calls := w.calls + cs)
  }

  /** The larger of `v` and zero: a resize that would make an extent negative stops at zero. */
  function Max0(v: real): real
  {
    if v < 0.0 then 0.0 else v
  }

  // ---------------------------------------------------------------------
  // The drag and resize steps of `on_cursor_pos_event`
  // (12_gui/src/ui.rs:60-91), in closed form; `prev` is the cursor of the
  // previous event and `d` the cursor delta.

  /** While `moving`, the window shifts by exactly the cursor delta (12_gui/src/ui.rs:60-62). */
  function MoveStep(w: Window, d: Vec2): (r: Window)
    ensures w.moving ==> r.pos == Vec2(w.pos.x + d.x, w.pos.y + d.y)
    ensures !w.moving ==> r == w
    ensures r == w.(pos := r.pos)
  {
    if w.moving then w.(pos := w.pos.Plus(d)) else w
  }

  /** The top edge is grabbed and the previous cursor is within the frame below it. */
  predicate TopGrabbed(w: Window, prev: Vec2)
    requires |w.sizing| == 4
  {
    w.sizing[0] && prev.y < w.pos.y + w.frameSize
  }

  /** The right edge is grabbed and the previous cursor is at or right of it. */
  predicate RightGrabbed(w: Window, prev: Vec2)
    requires |w.sizing| == 4
  {
    w.sizing[1] && w.pos.x + w.frameSize + w.size.x <= prev.x
  }

  /** The bottom edge is grabbed and the previous cursor is at or below it. */
  predicate BottomGrabbed(w: Window, prev: Vec2)
    requires |w.sizing| == 4
  {
    w.sizing[2] && w.pos.y + w.size.y + w.frameSize * 5.0 <= prev.y
  }

  /** The left edge is grabbed and the previous cursor is within the frame right of it. */
  predicate LeftGrabbed(w: Window, prev: Vec2)
    requires |w.sizing| == 4
  {
    w.sizing[3] && prev.x < w.pos.x + w.frameSize
  }

  /**
   * The top resize (12_gui/src/ui.rs:63-71): the top edge follows the cursor,
   * the bottom edge `pos.y + size.y` stays where it was, and the height stops
   * at zero.
   */
  function TopStep(w: Window, prev: Vec2, d: Vec2): (r: Window)
    requires |w.sizing| == 4
    ensures r.pos.y + r.size.y == w.pos.y + w.size.y
    ensures TopGrabbed(w, prev) ==> r.size.y == Max0(w.size.y - d.y) && r.size.y >= 0.0
    ensures !TopGrabbed(w, prev) ==> r == w
    ensures r == w.(pos := r.pos, size := r.size) && r.pos.x == w.pos.x && r.size.x == w.size.x
  {
    if TopGrabbed(w, prev) then
      var h := Max0(w.size.y - d.y);
      w.(pos := Vec2(w.pos.x, w.pos.y + w.size.y - h), size := Vec2(w.size.x, h))
    else w
  }

  /** The right resize (12_gui/src/ui.rs:72-77): the width follows the cursor and stops at zero; the position stays. */
  function RightStep(w: Window, prev: Vec2, d: Vec2): (r: Window)
    requires |w.sizing| == 4
    ensures RightGrabbed(w, prev) ==> r.size.x == Max0(w.size.x + d.x) && r.size.x >= 0.0
    ensures !RightGrabbed(w, prev) ==> r == w
    ensures r == w.(size := r.size) && r.size.y == w.size.y
  {
    if RightGrabbed(w, prev) then w.(size := Vec2(Max0(w.size.x + d.x), w.size.y)) else w
  }

  /** The bottom resize (12_gui/src/ui.rs:78-83): the height follows the cursor and stops at zero; the position stays. */
  function BottomStep(w: Window, prev: Vec2, d: Vec2): (r: Window)
    requires |w.sizing| == 4
    ensures BottomGrabbed(w, prev) ==> r.size.y == Max0(w.size.y + d.y) && r.size.y >= 0.0
    ensures !BottomGrabbed(w, prev) ==> r == w
    ensures r == w.(size := r.size) && r.size.x == w.size.x
  {
    if BottomGrabbed(w, prev) then w.(size := Vec2(w.size.x, Max0(w.size.y + d.y))) else w
  }

  /**
   * The left resize (12_gui/src/ui.rs:84-91): the left edge follows the
   * cursor, the right edge `pos.x + size.x` stays where it was, and the
   * width stops at zero.
   */
  function LeftStep(w: Window, prev: Vec2, d: Vec2): (r: Window)
    requires |w.sizing| == 4
    ensures r.pos.x + r.size.x == w.pos.x + w.size.x
    ensures LeftGrabbed(w, prev) ==> r.size.x == Max0(w.size.x - d.x) && r.size.x >= 0.0
    ensures !LeftGrabbed(w, prev) ==> r == w
    ensures r == w.(pos := r.pos, size := r.size) && r.pos.y == w.pos.y && r.size.y == w.size.y
  {
    if LeftGrabbed(w, prev) then
      var wd := Max0(w.size.x - d.x);
      w.(pos := Vec2(w.pos.x + w.size.x - wd, w.pos.y), size := Vec2(wd, w.size.y))
    else w
  }

  /**
   * The focused window after a cursor event from `prev` to `cursor`: the
   * five steps in the program's order, each testing its guard on the result
   * of the ones before, then a reshape.
   */
  function Dragged(w: Window, prev: Vec2, cursor: Vec2): (r: Window)
    requires |w.sizing| == 4
    ensures |r.sizing| == 4 && r.calls == w.calls + [Reshape]
    ensures (r.id, r.frameSize, r.ratio, r.moving, r.sizing) == (w.id, w.frameSize, w.ratio, w.moving, w.sizing)
  {
    var d := cursor.Minus(prev);
    var w1 := MoveStep(w, d);
    var w2 := TopStep(w1, prev, d);
    var w3 := RightStep(w2, prev, d);
    var w4 := BottomStep(w3, prev, d);
    Tell(LeftStep(w4, prev, d), [Reshape])
  }

  /** With no edge grabbed, a drag shifts the window by exactly the cursor delta and keeps its size. */
  lemma DragWhileMoving(w: Window, prev: Vec2, cursor: Vec2)
    requires |w.sizing| == 4 && w.moving && !w.sizing[0] && !w.sizing[1] && !w.sizing[2] && !w.sizing[3]
    ensures Dragged(w, prev, cursor).pos == w.pos.Plus(cursor.Minus(prev))
    ensures Dragged(w, prev, cursor).size == w.size
  {
  }

  /** Without a flag set, a cursor event only reshapes the focused window. */
  lemma DragAtRest(w: Window, prev: Vec2, cursor: Vec2)
    requires |w.sizing| == 4 && !w.moving && !w.sizing[0] && !w.sizing[1] && !w.sizing[2] && !w.sizing[3]
    ensures Dragged(w, prev, cursor) == Tell(w, [Reshape])
  {
  }

  /**
   * While the focused window is at rest, cursor events leave every window's
   * bounds as they were, so a second event at the same place hovers the
   * same window and fires no enter or leave.
   */
  lemma AtRestKeepsBounds(ws: seq<Window>, prev: Vec2, cursor: Vec2, hovered: Option<nat>)
    requires 0 < |ws| && forall i :: 0 <= i < |ws| ==> |ws[i].sizing| == 4
    requires var w := ws[|ws| - 1]; !w.moving && !w.sizing[0] && !w.sizing[1] && !w.sizing[2] && !w.sizing[3]
    requires hovered == Topmost(BoundsOf(ws), cursor, true)
    ensures BoundsOf(Manager.DraggedAll(ws, prev, cursor)) == BoundsOf(ws)
    ensures HoverFires(hovered, Topmost(BoundsOf(Manager.DraggedAll(ws, prev, cursor)), cursor, true)) == NothingFired
  {
    DragAtRest(ws[|ws| - 1], prev, cursor);
    assert BoundsOf(Manager.DraggedAll(ws, prev, cursor)) == BoundsOf(ws);
  }

  /** The windows after the drag parts of cursor events to each of `cursors` in turn, the first from `prev`. */
  ghost function DraggedAlong(ws: seq<Window>, prev: Vec2, cursors: seq<Vec2>): (r: seq<Window>)
    requires forall i :: 0 <= i < |ws| ==> |ws[i].sizing| == 4
    ensures |r| == |ws| && forall i :: 0 <= i < |r| ==> |r[i].sizing| == 4
    ensures forall i :: 0 <= i < |ws| - 1 ==> r[i] == ws[i]
    ensures forall i :: 0 <= i < |ws| ==> (r[i].id, r[i].frameSize, r[i].ratio, r[i].moving, r[i].sizing) == (ws[i].id, ws[i].frameSize, ws[i].ratio, ws[i].moving, ws[i].sizing)
    ensures 0 < |ws| ==> r[|ws| - 1].calls == ws[|ws| - 1].calls + seq(|cursors|, _ => Reshape)
    decreases |cursors|
  {
    if |cursors| == 0 then ws
    else DraggedAlong(Manager.DraggedAll(ws, prev, cursors[0]), cursors[0], cursors[1..])
  }

  /**
   * Any number of cursor events leave every window's bounds as they were
   * while the focused window is at rest: each drag part only reshapes that
   * window, which stays at rest for the next one.
   */
  lemma {:induction false} AtRestKeepsBoundsAlong(ws: seq<Window>, prev: Vec2, cursors: seq<Vec2>)
    requires 0 < |ws| && forall i :: 0 <= i < |ws| ==> |ws[i].sizing| == 4
    requires var w := ws[|ws| - 1]; !w.moving && !w.sizing[0] && !w.sizing[1] && !w.sizing[2] && !w.sizing[3]
    ensures BoundsOf(DraggedAlong(ws, prev, cursors)) == BoundsOf(ws)
    decreases |cursors|
  {
    if 0 < |cursors| {
      var next := Manager.DraggedAll(ws, prev, cursors[0]);
      DragAtRest(ws[|ws| - 1], prev, cursors[0]);
      assert BoundsOf(next) == BoundsOf(ws);
      AtRestKeepsBoundsAlong(next, cursors[0], cursors[1..]);
    }
  }

  /**
   * Moving the cursor back to where it was before does not undo a resize
   * that clamped: from a height of 10, a top drag of 30 clamps at 0 and the
   * way back restores only 0 + 30.
   */
  lemma ClampIsNotUndone()
    ensures var w := Window(0, Vec2(0.0, 0.0), Vec2(50.0, 10.0), 8.0, Vec2(1.0, 1.0), false, [true, false, false, false], []);
      var w1 := Dragged(w, Vec2(5.0, 2.0), Vec2(5.0, 32.0));
      w1.size.y == 0.0 && w1.pos.y == 10.0
      && Dragged(w1, Vec2(5.0, 12.0), Vec2(5.0, -18.0)).size.y == 30.0
  {
    var w := Window(0, Vec2(0.0, 0.0), Vec2(50.0, 10.0), 8.0, Vec2(1.0, 1.0), false, [true, false, false, false], []);
    var d := Vec2(5.0, 32.0).Minus(Vec2(5.0, 2.0));
    assert TopGrabbed(w, Vec2(5.0, 2.0));
    var w1 := Dragged(w, Vec2(5.0, 2.0), Vec2(5.0, 32.0));
    assert w1.size.y == 0.0 && w1.pos.y == 10.0;
    assert TopGrabbed(w1, Vec2(5.0, 12.0));
  }

  // ---------------------------------------------------------------------
  // Hit-testing and the calls a cursor event delivers
  // (12_gui/src/ui.rs:97-118).

  /** The screen rectangle of a window as the hit test sees it: the body plus the frame, six frames high in total. */
  function Bounds(w: Window): Rect
  {
    Rect(w.pos, w.size.x + w.frameSize * 2.0, w.size.y + w.frameSize * 6.0)
  }

  function BoundsOf(ws: seq<Window>): (r: seq<Rect>)
    ensures |r| == |ws| && forall i :: 0 <= i < |ws| ==> r[i] == Bounds(ws[i])
  {
    seq(|ws|, i requires 0 <= i < |ws| => Bounds(ws[i]))
  }

  /**
   * The calls window `i` receives from one cursor event: the cursor event if
   * it is the hit, then `mouse_on` if it is entered, then `mouse_off` if it
   * is left.
   */
  function CallsFor(i: nat, hit: Option<nat>, f: Fired, x: real, y: real): seq<Call>
  {
    (if hit == Some(i) then [CursorPos(x, y)] else [])
    + (if f.entered == Some(i) then [MouseOn] else [])
    + (if f.left == Some(i) then [MouseOff] else [])
  }

  /** Every window of `ws` after receiving its calls from one cursor event. */
  function Notified(ws: seq<Window>, hit: Option<nat>, f: Fired, x: real, y: real): (r: seq<Window>)
    ensures |r| == |ws|
    ensures forall i :: 0 <= i < |ws| ==> r[i] == Tell(ws[i], CallsFor(i, hit, f, x, y))
  {
    seq(|ws|, i requires 0 <= i < |ws| => Tell(ws[i], CallsFor(i, hit, f, x, y)))
  }

  /** Telling a window two lists of calls is telling it their concatenation. */
  lemma TellTwice(w: Window, a: seq<Call>, b: seq<Call>)
    ensures Tell(Tell(w, a), b) == Tell(w, a + b)
  {
    assert w.calls + a + b == w.calls + (a + b);
  }

  /** For one window, the calls of the hit round followed by those of the hover round. */
  lemma CallsInTwoRounds(i: nat, hit: Option<nat>, f: Fired, x: real, y: real)
    ensures CallsFor(i, hit, NothingFired, x, y) + CallsFor(i, None, f, x, y) == CallsFor(i, hit, f, x, y)
  {
    var a := if hit == Some(i) then [CursorPos(x, y)] else [];
    var b := if f.entered == Some(i) then [MouseOn] else [];
    var c := if f.left == Some(i) then [MouseOff] else [];
    assert CallsFor(i, hit, NothingFired, x, y) == a;
    assert CallsFor(i, None, f, x, y) == b + c;
    assert a + (b + c) == a + b + c;
  }

  /** The cursor event first, enter and leave after: the two rounds of one event deliver the calls of `Notified`. */
  lemma NotifiedInTwoRounds(ws: seq<Window>, hit: Option<nat>, f: Fired, x: real, y: real)
    ensures Notified(Notified(ws, hit, NothingFired, x, y), None, f, x, y) == Notified(ws, hit, f, x, y)
  {
    forall i | 0 <= i < |ws|
      ensures Notified(Notified(ws, hit, NothingFired, x, y), None, f, x, y)[i] == Notified(ws, hit, f, x, y)[i]
    {
      TellTwice(ws[i], CallsFor(i, hit, NothingFired, x, y), CallsFor(i, None, f, x, y));
      CallsInTwoRounds(i, hit, f, x, y);
    }
  }

  /**
   * One cursor event delivers at most one cursor event, to the topmost
   * window under the cursor; `mouse_on` and `mouse_off` go out only when the
   * hovered window changed, to the new and the old one.
   */
  lemma CursorCallsOnce(ws: seq<Window>, prev: Option<nat>, x: real, y: real, i: nat)
    requires i < |ws|
    ensures var hit := Topmost(BoundsOf(ws), Vec2(x, y), true);
      var cs := CallsFor(i, hit, HoverFires(prev, hit), x, y);
      && (CursorPos(x, y) in cs <==> hit == Some(i))
      && (MouseOn in cs <==> hit == Some(i) && prev != hit)
      && (MouseOff in cs <==> prev == Some(i) && prev != hit)
      && (hit == Some(i) ==> Contains(Bounds(ws[i]), Vec2(x, y), true))
      && (hit == Some(i) ==> forall j :: i < j < |ws| ==> !Contains(Bounds(ws[j]), Vec2(x, y), true))
  {
    var hit := Topmost(BoundsOf(ws), Vec2(x, y), true);
    var f := HoverFires(prev, hit);
    var cs := CallsFor(i, hit, f, x, y);
    var a, b, c := (if hit == Some(i) then [CursorPos(x, y)] else []), (if f.entered == Some(i) then [MouseOn] else []), (if f.left == Some(i) then [MouseOff] else []);
    assert cs == a + b + c;
    assert CursorPos(x, y) in cs <==> CursorPos(x, y) in a;
    assert MouseOn in cs <==> MouseOn in b;
    assert MouseOff in cs <==> MouseOff in c;
  }

  // ---------------------------------------------------------------------
  // The mouse button (12_gui/src/ui.rs:121-147).

  /** The calls the hovered window receives on a press: the button event, then `mouse_down` at the cursor. */
  function PressCalls(cursor: Vec2): seq<Call>
  {
    [MouseButton(true), MouseDown(cursor)]
  }

  /** The calls the hovered window receives on a release: the button event, then `mouse_up`. */
  function ReleaseCalls(): seq<Call>
  {
    [MouseButton(false), MouseUp]
  }

  class Manager {
    var windows: seq<Window>
    var onCursorWindow: Option<nat>
    var prevOnCursorWindow: Option<nat>
    var frameBufferSize: Vec2
    var ratio: Vec2
    var cursorPos: Vec2
    var prevCursorPos: Vec2

    /** Whether hover index `h` names a window of a list of `n`. */
    static predicate InRange(h: Option<nat>, n: nat)
    {
      h.Some? ==> h.value < n
    }

    /**
     * Every window has its four resize flags, and both hover indices name a
     * window: the program only ever takes them from the hit test or repairs
     * them in `to_front_window`, and never removes a window.
     */
    ghost predicate Valid()
      reads this
    {
      && (forall i :: 0 <= i < |windows| ==> |windows[i].sizing| == 4)
      && InRange(onCursorWindow, |windows|) && InRange(prevOnCursorWindow, |windows|)
    }

    /**
     * `Manager::create` (12_gui/src/ui.rs:17-24): no windows, nothing
     * hovered, the cursor at the origin, and the ratio of the frame buffer.
     */
    constructor Create(frameBufferSizeX: real, frameBufferSizeY: real)
      requires frameBufferSizeX != 0.0 && frameBufferSizeY != 0.0
      ensures Valid() && windows == [] && onCursorWindow == None && prevOnCursorWindow == None
      ensures frameBufferSize == Vec2(frameBufferSizeX, frameBufferSizeY)
      ensures ratio == ClipRatio(frameBufferSizeX, frameBufferSizeY)
      ensures cursorPos == Vec2(0.0, 0.0) && prevCursorPos == Vec2(0.0, 0.0)
    {
      windows := [];
      frameBufferSize := Vec2(frameBufferSizeX, frameBufferSizeY);
      ratio := Vec2(2.0 / frameBufferSizeX, 2.0 / frameBufferSizeY);
      cursorPos := Vec2(0.0, 0.0);
      prevCursorPos := Vec2(0.0, 0.0);
      onCursorWindow := None;
      prevOnCursorWindow := None;
    }

    /** `push_window` (12_gui/src/ui.rs:26-29): the window goes on top; the hover indices stay. */
    method PushWindow(w: Window)
      requires Valid() && |w.sizing| == 4
      modifies this`windows
      ensures Valid() && windows == old(windows) + [w]
    {
      windows := windows + [w];
    }

    /**
     * `to_front_window` (12_gui/src/ui.rs:31-52): window `index` moves to
     * the top, and both hover indices are repaired so that each still names
     * the window it named before.
     */
    method ToFrontWindow(index: nat)
      requires Valid() && (0 < |windows| ==> index < |windows|)
      modifies this`windows, this`onCursorWindow, this`prevOnCursorWindow
      ensures Valid()
      ensures |old(windows)| == 0 ==> windows == old(windows) && onCursorWindow == old(onCursorWindow) && prevOnCursorWindow == old(prevOnCursorWindow)
      ensures 0 < |old(windows)| ==>
        && windows == MoveToEnd(old(windows), index)
        && onCursorWindow == FixIndex(old(onCursorWindow), index, |windows|)
        && prevOnCursorWindow == FixIndex(old(prevOnCursorWindow), index, |windows|)
      ensures onCursorWindow.Some? <==> old(onCursorWindow).Some?
      ensures onCursorWindow.Some? ==> windows[onCursorWindow.value] == old(windows[onCursorWindow.value])
      ensures prevOnCursorWindow.Some? <==> old(prevOnCursorWindow).Some?
      ensures prevOnCursorWindow.Some? ==> windows[prevOnCursorWindow.value] == old(windows[prevOnCursorWindow.value])
    {
      if 0 < |windows| {
        RaiseWindow(index);
        RepairHover(index);
        if old(onCursorWindow).Some? {
          FixIndexFollowsEntry(old(windows), index, old(onCursorWindow).value);
        }
        if old(prevOnCursorWindow).Some? {
          FixIndexFollowsEntry(old(windows), index, old(prevOnCursorWindow).value);
        }
      }
    }

    /** The reordering of `to_front_window` (12_gui/src/ui.rs:33-34): `remove(index)`, then `push`. */
    method RaiseWindow(index: nat)
      requires Valid() && index < |windows|
      modifies this`windows
      ensures windows == MoveToEnd(old(windows), index)
      ensures forall i :: 0 <= i < |windows| ==> |windows[i].sizing| == 4
    {
      var front := windows[index];
      windows := windows[..index] + windows[index + 1..];
      windows := windows + [front];
      assert windows == MoveToEnd(old(windows), index);
    }

    /** The repair of both hover indices in `to_front_window` (12_gui/src/ui.rs:36-50), on a list whose length did not change. */
    method RepairHover(index: nat)
      requires index < |windows|
      modifies this`onCursorWindow, this`prevOnCursorWindow
      ensures prevOnCursorWindow == FixIndex(old(prevOnCursorWindow), index, |windows|)
      ensures onCursorWindow == FixIndex(old(onCursorWindow), index, |windows|)
    {
      if prevOnCursorWindow.Some? {
        if index < prevOnCursorWindow.value {
          prevOnCursorWindow := Some(prevOnCursorWindow.value - 1);
        } else if index == prevOnCursorWindow.value {
          prevOnCursorWindow := Some(|windows| - 1);
        }
      }

      if onCursorWindow.Some? {
        if index < onCursorWindow.value {
          onCursorWindow := Some(onCursorWindow.value - 1);
        } else if index == onCursorWindow.value {
          onCursorWindow := Some(|windows| - 1);
        }
      }
    }

    /** The windows after the drag part of a cursor event to `cursor`, from the previous cursor `prev`. */
    static ghost function DraggedAll(ws: seq<Window>, prev: Vec2, cursor: Vec2): (r: seq<Window>)
      requires forall i :: 0 <= i < |ws| ==> |ws[i].sizing| == 4
      ensures |r| == |ws| && (forall i :: 0 <= i < |r| ==> |r[i].sizing| == 4)
      ensures forall i :: 0 <= i < |ws| - 1 ==> r[i] == ws[i]
      ensures forall i :: 0 <= i < |ws| ==> (r[i].id, r[i].frameSize, r[i].ratio, r[i].moving, r[i].sizing) == (ws[i].id, ws[i].frameSize, ws[i].ratio, ws[i].moving, ws[i].sizing)
      ensures 0 < |ws| ==> r[|ws| - 1].calls == ws[|ws| - 1].calls + [Reshape]
    {
      if |ws| == 0 then ws else ws[|ws| - 1 := Dragged(ws[|ws| - 1], prev, cursor)]
    }

    /**
     * `on_cursor_pos_event` (12_gui/src/ui.rs:54-119): the focused window is
     * dragged and resized by the cursor delta; the topmost window whose
     * closed bounds hold the cursor is hovered and receives the event; if
     * the hovered window changed, the new one is entered and the old one
     * left; the cursor and the hover are recorded for the next event.
     */
    method OnCursorPosEvent(x: real, y: real)
      requires Valid()
      modifies this`windows, this`cursorPos, this`prevCursorPos, this`onCursorWindow, this`prevOnCursorWindow
      ensures Valid()
      ensures cursorPos == Vec2(x, y) && prevCursorPos == cursorPos
      ensures var dragged := DraggedAll(old(windows), old(prevCursorPos), Vec2(x, y));
        && onCursorWindow == Topmost(BoundsOf(dragged), Vec2(x, y), true)
        && windows == Notified(dragged, onCursorWindow, HoverFires(old(prevOnCursorWindow), onCursorWindow), x, y)
      ensures prevOnCursorWindow == onCursorWindow
    {
      DragFocused(x, y);
      prevCursorPos := cursorPos;
      ghost var dragged := windows;
      HitWindow(x, y);
      FireHover(x, y);
      NotifiedInTwoRounds(dragged, onCursorWindow, HoverFires(old(prevOnCursorWindow), onCursorWindow), x, y);
      prevOnCursorWindow := onCursorWindow;
    }

    /** The drag part (12_gui/src/ui.rs:55-93): the cursor is stored and the focused window follows the delta. */
    method DragFocused(x: real, y: real)
      requires Valid()
      modifies this`windows, this`cursorPos
      ensures Valid() && cursorPos == Vec2(x, y)
      ensures windows == DraggedAll(old(windows), prevCursorPos, cursorPos)
    {
      cursorPos := Vec2(x, y);
      var deltaPos := cursorPos.Minus(prevCursorPos);
      if 0 < |windows| {
        var focused := DragWindow(windows[|windows| - 1], prevCursorPos, deltaPos);
        focused := focused.(calls := focused.calls + [Reshape]);
        assert focused == Dragged(windows[|windows| - 1], prevCursorPos, cursorPos);
        windows := windows[|windows| - 1 := focused];
      }
    }

    /** The five steps on the focused window, in the program's order. */
    static method DragWindow(w0: Window, prev: Vec2, deltaPos: Vec2) returns (w: Window)
      requires |w0.sizing| == 4
      ensures w == LeftStep(BottomStep(RightStep(TopStep(MoveStep(w0, deltaPos), prev, deltaPos), prev, deltaPos), prev, deltaPos), prev, deltaPos)
    {
      w := w0;
      if w.moving {
        w := w.(pos := Vec2(w.pos.x + deltaPos.x, w.pos.y + deltaPos.y));
      }
      w := ResizeTop(w, prev, deltaPos);
      w := ResizeRight(w, prev, deltaPos);
      w := ResizeBottom(w, prev, deltaPos);
      w := ResizeLeft(w, prev, deltaPos);
    }

    /** The top resize as written (12_gui/src/ui.rs:63-71): shrink by the delta, move by it, then clamp at zero keeping the bottom edge. */
    static method ResizeTop(w0: Window, prev: Vec2, deltaPos: Vec2) returns (w: Window)
      requires |w0.sizing| == 4
      ensures w == TopStep(w0, prev, deltaPos)
    {
      w := w0;
      if w.sizing[0] && prev.y < w.pos.y + w.frameSize {
        w := w.(size := Vec2(w.size.x, w.size.y - deltaPos.y));
        w := w.(pos := Vec2(w.pos.x, w.pos.y + deltaPos.y));
        if w.size.y < 0.0 {
          w := w.(pos := Vec2(w.pos.x, w.pos.y + w.size.y));
          w := w.(size := Vec2(w.size.x, 0.0));
        }
      }
    }

    /** The right resize as written (12_gui/src/ui.rs:72-77). */
    static method ResizeRight(w0: Window, prev: Vec2, deltaPos: Vec2) returns (w: Window)
      requires |w0.sizing| == 4
      ensures w == RightStep(w0, prev, deltaPos)
    {
      w := w0;
      if w.sizing[1] && w.pos.x + w.frameSize + w.size.x <= prev.x {
        w := w.(size := Vec2(w.size.x + deltaPos.x, w.size.y));
        if w.size.x < 0.0 {
          w := w.(size := Vec2(0.0, w.size.y));
        }
      }
    }

    /** The bottom resize as written (12_gui/src/ui.rs:78-83). */
    static method ResizeBottom(w0: Window, prev: Vec2, deltaPos: Vec2) returns (w: Window)
      requires |w0.sizing| == 4
      ensures w == BottomStep(w0, prev, deltaPos)
    {
      w := w0;
      if w.sizing[2] && w.pos.y + w.size.y + w.frameSize * 5.0 <= prev.y {
        w := w.(size := Vec2(w.size.x, w.size.y + deltaPos.y));
        if w.size.y < 0.0 {
          w := w.(size := Vec2(w.size.x, 0.0));
        }
      }
    }

    /** The left resize as written (12_gui/src/ui.rs:84-91): shrink by the delta, move by it, then clamp at zero keeping the right edge. */
    static method ResizeLeft(w0: Window, prev: Vec2, deltaPos: Vec2) returns (w: Window)
      requires |w0.sizing| == 4
      ensures w == LeftStep(w0, prev, deltaPos)
    {
      w := w0;
      if w.sizing[3] && prev.x < w.pos.x + w.frameSize {
        w := w.(size := Vec2(w.size.x - deltaPos.x, w.size.y));
        w := w.(pos := Vec2(w.pos.x + deltaPos.x, w.pos.y));
        if w.size.x < 0.0 {
          w := w.(pos := Vec2(w.pos.x + w.size.x, w.pos.y));
          w := w.(size := Vec2(0.0, w.size.y));
        }
      }
    }

    /**
     * The hit test (12_gui/src/ui.rs:97-104): the windows are scanned from
     * the top; the first whose closed bounds hold the cursor becomes the
     * hovered one and receives the cursor event.
     */
    method HitWindow(x: real, y: real)
      requires Valid() && cursorPos == Vec2(x, y)
      modifies this`windows, this`onCursorWindow
      ensures Valid()
      ensures onCursorWindow == Topmost(BoundsOf(old(windows)), cursorPos, true)
      ensures windows == Notified(old(windows), onCursorWindow, NothingFired, x, y)
    {
      onCursorWindow := None;
      var index: nat := |windows|;
      while 0 < index
        invariant index <= |windows| && windows == old(windows)
        invariant onCursorWindow == None
        invariant TopmostBelow(BoundsOf(windows), cursorPos, true, |windows|) == TopmostBelow(BoundsOf(windows), cursorPos, true, index)
        decreases index
      {
        var w := windows[index - 1];
        if w.pos.x <= cursorPos.x && cursorPos.x <= w.pos.x + (w.size.x + w.frameSize * 2.0)
          && w.pos.y <= cursorPos.y && cursorPos.y <= w.pos.y + (w.size.y + w.frameSize * 6.0)
        {
          assert Contains(BoundsOf(windows)[index - 1], cursorPos, true);
          onCursorWindow := Some(index - 1);
          windows := windows[index - 1 := Tell(w, [CursorPos(x, y)])];
          break;
        }
        index := index - 1;
      }
      forall i | 0 <= i < |windows|
        ensures windows[i] == Tell(old(windows)[i], CallsFor(i, onCursorWindow, NothingFired, x, y))
      {
        if onCursorWindow != Some(i) {
          assert CallsFor(i, onCursorWindow, NothingFired, x, y) == [];
          assert old(windows)[i].calls + [] == old(windows)[i].calls;
        } else {
          assert CallsFor(i, onCursorWindow, NothingFired, x, y) == [CursorPos(x, y)];
        }
      }
    }

    /**
     * Enter and leave (12_gui/src/ui.rs:106-116): when the hovered window
     * differs from the one of the previous event, the new one gets
     * `mouse_on` and the old one `mouse_off`.
     */
    method FireHover(x: real, y: real)
      requires Valid()
      modifies this`windows
      ensures Valid()
      ensures windows == Notified(old(windows), None, HoverFires(prevOnCursorWindow, onCursorWindow), x, y)
    {
      if onCursorWindow != prevOnCursorWindow {
        if onCursorWindow.Some? {
          var i := onCursorWindow.value;
          windows := windows[i := Tell(windows[i], [MouseOn])];
        }
        if prevOnCursorWindow.Some? {
          var i := prevOnCursorWindow.value;
          windows := windows[i := Tell(windows[i], [MouseOff])];
        }
      }
      var f := HoverFires(prevOnCursorWindow, onCursorWindow);
      forall i | 0 <= i < |windows|
        ensures windows[i] == Tell(old(windows)[i], CallsFor(i, None, f, x, y))
      {
        var cs := CallsFor(i, None, f, x, y);
        if f.entered == Some(i) {
          assert f.left != Some(i) && cs == [MouseOn];
        } else if f.left == Some(i) {
          assert cs == [MouseOff];
        } else {
          assert cs == [] && old(windows)[i].calls + [] == old(windows)[i].calls;
        }
      }
    }

    /**
     * `on_mouse_down_event` (12_gui/src/ui.rs:121-147). A press over a
     * window delivers the button event and `mouse_down` at the cursor to it,
     * then raises it to the top, where it stays hovered. A release delivers
     * the button event and `mouse_up` to the hovered window, if any, then
     * clears the drag flag and all four resize flags of the top window.
     */
    method OnMouseDownEvent(mouseDown: bool)
      requires Valid()
      modifies this`windows, this`onCursorWindow, this`prevOnCursorWindow
      ensures Valid()
      ensures mouseDown && old(onCursorWindow).None? ==>
        windows == old(windows) && onCursorWindow == None && prevOnCursorWindow == old(prevOnCursorWindow)
      ensures mouseDown && old(onCursorWindow).Some? ==>
        var h := old(onCursorWindow).value;
        && windows == MoveToEnd(old(windows)[h := Tell(old(windows)[h], PressCalls(cursorPos))], h)
        && onCursorWindow == Some(|windows| - 1)
        && prevOnCursorWindow == FixIndex(old(prevOnCursorWindow), h, |windows|)
      ensures !mouseDown ==>
        && onCursorWindow == old(onCursorWindow) && prevOnCursorWindow == old(prevOnCursorWindow)
        && |windows| == |old(windows)|
        && (forall i :: 0 <= i < |windows| ==>
              windows[i].calls == old(windows)[i].calls + (if old(onCursorWindow) == Some(i) then ReleaseCalls() else []))
        && (forall i :: 0 <= i < |windows| - 1 ==> windows[i] == old(windows)[i].(calls := windows[i].calls))
      ensures !mouseDown && 0 < |windows| ==>
        var w, w0 := windows[|windows| - 1], old(windows)[|windows| - 1];
        && !w.moving && (forall k :: 0 <= k < 4 ==> !w.sizing[k])
        && w == w0.(calls := w.calls, moving := false, sizing := w.sizing)
    {
      if mouseDown {
        if onCursorWindow.Some? {
          PressWindow(onCursorWindow.value);
        }
      } else {
        ReleaseAll();
      }
    }

    /** The release (12_gui/src/ui.rs:133-145): the hovered window is told, then the top window settles. */
    method ReleaseAll()
      requires Valid()
      modifies this`windows
      ensures Valid() && |windows| == |old(windows)|
      ensures forall i :: 0 <= i < |windows| ==>
        windows[i].calls == old(windows)[i].calls + (if onCursorWindow == Some(i) then ReleaseCalls() else [])
      ensures forall i :: 0 <= i < |windows| - 1 ==> windows[i] == old(windows)[i].(calls := windows[i].calls)
      ensures 0 < |windows| ==>
        var w, w0 := windows[|windows| - 1], old(windows)[|windows| - 1];
        && !w.moving && (forall k :: 0 <= k < 4 ==> !w.sizing[k])
        && w == w0.(calls := w.calls, moving := false, sizing := w.sizing)
    {
      if onCursorWindow.Some? {
        ReleaseWindow(onCursorWindow.value);
      }
      ghost var told := windows;
      assert forall i :: 0 <= i < |windows| ==>
        told[i] == old(windows)[i].(calls := old(windows)[i].calls + (if onCursorWindow == Some(i) then ReleaseCalls() else []));
      if 0 < |windows| {
        SettleFocused();
      }
    }

    /** The press (12_gui/src/ui.rs:123-128): window `h` is told, then raised. */
    method PressWindow(h: nat)
      requires Valid() && onCursorWindow == Some(h)
      modifies this`windows, this`onCursorWindow, this`prevOnCursorWindow
      ensures Valid()
      ensures windows == MoveToEnd(old(windows)[h := Tell(old(windows)[h], PressCalls(cursorPos))], h)
      ensures onCursorWindow == Some(|windows| - 1)
      ensures prevOnCursorWindow == FixIndex(old(prevOnCursorWindow), h, |windows|)
    {
      windows := windows[h := Tell(windows[h], [MouseButton(true)])];
      windows := windows[h := Tell(windows[h], [MouseDown(cursorPos)])];
      TellTwice(old(windows)[h], [MouseButton(true)], [MouseDown(cursorPos)]);
      assert [MouseButton(true)] + [MouseDown(cursorPos)] == PressCalls(cursorPos);
      assert windows == old(windows)[h := Tell(old(windows)[h], PressCalls(cursorPos))];
      ToFrontWindow(h);
    }

    /** The release delivered to the hovered window `h` (12_gui/src/ui.rs:133-137). */
    method ReleaseWindow(h: nat)
      requires Valid() && h < |windows|
      modifies this`windows
      ensures Valid()
      ensures windows == old(windows)[h := Tell(old(windows)[h], ReleaseCalls())]
    {
      windows := windows[h := Tell(windows[h], [MouseButton(false)])];
      windows := windows[h := Tell(windows[h], [MouseUp])];
      TellTwice(old(windows)[h], [MouseButton(false)], [MouseUp]);
      assert [MouseButton(false)] + [MouseUp] == ReleaseCalls();
    }

    /** The top window stops dragging and resizing (12_gui/src/ui.rs:139-145): `moving`, then each of the four flags in turn. */
    method SettleFocused()
      requires Valid() && 0 < |windows|
      modifies this`windows
      ensures Valid() && |windows| == |old(windows)|
      ensures windows[..|windows| - 1] == old(windows)[..|windows| - 1]
      ensures var w, w0 := windows[|windows| - 1], old(windows)[|windows| - 1];
        && !w.moving && (forall k :: 0 <= k < 4 ==> !w.sizing[k])
        && w == w0.(moving := false, sizing := w.sizing)
    {
      var focused := windows[|windows| - 1];
      focused := focused.(moving := false);
      for i := 0 to 4
        invariant |focused.sizing| == 4 && !focused.moving
        invariant forall k :: 0 <= k < i ==> !focused.sizing[k]
        invariant focused == old(windows)[|windows| - 1].(moving := false, sizing := focused.sizing)
      {
        focused := focused.(sizing := focused.sizing[i := false]);
      }
      windows := windows[|windows| - 1 := focused];
    }

    /**
     * `on_frame_buffer_size_event` (12_gui/src/ui.rs:149-158): the frame
     * buffer size and its ratio are stored, and every window takes that
     * ratio and reshapes.
     */
    method OnFrameBufferSizeEvent(frameBufferSizeX: real, frameBufferSizeY: real)
      requires Valid() && frameBufferSizeX != 0.0 && frameBufferSizeY != 0.0
      modifies this`frameBufferSize, this`ratio, this`windows
      ensures Valid()
      ensures frameBufferSize == Vec2(frameBufferSizeX, frameBufferSizeY) && ratio == ClipRatio(frameBufferSizeX, frameBufferSizeY)
      ensures |windows| == |old(windows)|
      ensures forall i :: 0 <= i < |windows| ==> windows[i] == Tell(old(windows)[i], [Reshape]).(ratio := ratio)
    {
      frameBufferSize := frameBufferSize.(x := frameBufferSizeX);
      frameBufferSize := frameBufferSize.(y := frameBufferSizeY);
      ratio := ratio.(x := 2.0 / frameBufferSize.x);
      ratio := ratio.(y := 2.0 / frameBufferSize.y);
      for i := 0 to |windows|
        invariant Valid() && |windows| == |old(windows)|
        invariant frameBufferSize == Vec2(frameBufferSizeX, frameBufferSizeY) && ratio == ClipRatio(frameBufferSizeX, frameBufferSizeY)
        invariant forall j :: 0 <= j < i ==> windows[j] == Tell(old(windows)[j], [Reshape]).(ratio := ratio)
        invariant forall j :: i <= j < |windows| ==> windows[j] == old(windows)[j]
      {
        windows := windows[i := windows[i].(ratio := ratio)];
        windows := windows[i := Tell(windows[i], [Reshape])];
      }
    }
  }
}
