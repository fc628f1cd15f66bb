/**
 * The window manager of the 12_imgui stage (12_imgui/src/ui.rs): an
 * ordered list of window widgets (the last one is on top), the window the
 * cursor is over, and the drag state of the focused window. A window here
 * is a plain widget node (`ImguiObject.Object`) whose first three children
 * are its close, maximize and minimize buttons; the manager moves and
 * resizes the focused window itself, from a cursor gap it keeps, against
 * the minimum sizes set by the frame and the buttons.
 *
 * The program shares the windows through `Rc<RefCell<..>>`; here the
 * manager owns them, and their `Repr` sets are disjoint.
 */
module ImguiManager {
  import opened Common
  import opened Style
  import opened HitTest
  import opened Resize
  import opened ChildList
  import opened ImguiObject
  import opened ImguiWindow
  import opened PositionTree

  /** The ids of the windows, in order. */
  function IdsOf(ws: seq<Object>): (r: seq<nat>)
    ensures |r| == |ws| && forall i :: 0 <= i < |ws| ==> r[i] == ws[i].id
  {
    seq(|ws|, i requires 0 <= i < |ws| => ws[i].id)
  }

  /**
   * The index of the last entry of `ids` equal to `id`, if any: the entry
   * the forward scan of `delete_window` (12_imgui/src/ui.rs:135-140)
   * settles on.
   */
  function LastWithId(ids: seq<nat>, id: nat): (r: Option<nat>)
    ensures r.Some? ==> r.value < |ids| && ids[r.value] == id
    ensures r.Some? ==> forall j :: r.value < j < |ids| ==> ids[j] != id
    ensures r.None? <==> forall j :: 0 <= j < |ids| ==> ids[j] != id
  {
    if |ids| == 0 then None
    else if ids[|ids| - 1] == id then Some(|ids| - 1)
    else LastWithId(ids[..|ids| - 1], id)
  }

  /** `Vec::remove(i)`: entry `i` is dropped and the later ones move down by one. */
  function RemoveAt<T>(s: seq<T>, i: nat): (r: seq<T>)
    requires i < |s|
    ensures |r| == |s| - 1
    ensures forall j :: 0 <= j < i ==> r[j] == s[j]
    ensures forall j :: i <= j < |r| ==> r[j] == s[j + 1]
  {
    s[..i] + s[i + 1..]
  }

  /** The top-edge step against the frame `f` captured when the event began: the top follows the cursor, `f`'s bottom stays. */
  function TopHauled(cur: Frame, f: Frame, c: Vec2, gy: real, minH: real): (r: Frame)
    ensures r.pos.y + r.height == f.pos.y + f.height && r.height >= minH
    ensures r.pos.x == cur.pos.x && r.width == cur.width
  {
    var s := DragStart(Span(f.pos.y, f.height), c.y, gy, minH);
    Frame(cur.pos.(y := s.start), cur.width, s.extent)
  }

  /** The left-edge step against the captured frame `f`: the left follows the cursor, `f`'s right stays. */
  function LeftHauled(cur: Frame, f: Frame, c: Vec2, gx: real, minW: real): (r: Frame)
    ensures r.pos.x + r.width == f.pos.x + f.width && r.width >= minW
    ensures r.pos.y == cur.pos.y && r.height == cur.height
  {
    var s := DragStart(Span(f.pos.x, f.width), c.x, gx, minW);
    Frame(cur.pos.(x := s.start), s.extent, cur.height)
  }

  /**
   * The focused window's frame after the drag of `on_cursor_pos_event`
   * (12_imgui/src/ui.rs:161-199) with the cursor at `c`: a held title band
   * puts the corner at the cursor minus the gap; then the top, right,
   * bottom and left edges, when held, follow the cursor in that order, every
   * one of them measured against the frame `f` captured before the first
   * step, and none below the minimum width `minW` or height `minH`.
   */
  function Hauled(f: Frame, c: Vec2, gr: Grip, minW: real, minH: real): Frame
    requires |gr.sizing| == 4
  {
    var f0 := if gr.moving then f.(pos := c.Minus(gr.gap)) else f;
    var f1 := if gr.sizing[0] then TopHauled(f0, f, c, gr.gap.y, minH) else f0;
    var f2 := if gr.sizing[1] then f1.(width := DragEnd(f.pos.x, c.x, gr.gap.x, minW)) else f1;
    var f3 := if gr.sizing[2] then f2.(height := DragEnd(f.pos.y, c.y, gr.gap.y, minH)) else f2;
    if gr.sizing[3] then LeftHauled(f3, f, c, gr.gap.x, minW) else f3
  }

  /**
   * What the manager's drag does to the frame: a resized extent is never
   * below its minimum and an extent no edge holds is kept; a held top edge
   * without the bottom keeps the bottom and a held left edge keeps the
   * right, even while the title band is held too; a held title band puts
   * the corner at the cursor minus the gap on each axis whose start edge is
   * not held; a side nothing holds stays where it was. A held bottom or
   * right edge reaches from the captured corner, so with the title band also
   * held it does not follow the moved corner.
   */
  lemma HauledSpec(f: Frame, c: Vec2, gr: Grip, minW: real, minH: real)
    requires |gr.sizing| == 4
    ensures var r := Hauled(f, c, gr, minW, minH);
      && (gr.sizing[1] || gr.sizing[3] ==> r.width >= minW)
      && (gr.sizing[0] || gr.sizing[2] ==> r.height >= minH)
      && (!gr.sizing[1] && !gr.sizing[3] ==> r.width == f.width)
      && (!gr.sizing[0] && !gr.sizing[2] ==> r.height == f.height)
      && (gr.sizing[0] && !gr.sizing[2] ==> r.pos.y + r.height == f.pos.y + f.height)
      && (gr.sizing[3] ==> r.pos.x + r.width == f.pos.x + f.width)
      && (gr.moving && !gr.sizing[0] ==> r.pos.y == c.y - gr.gap.y)
      && (gr.moving && !gr.sizing[3] ==> r.pos.x == c.x - gr.gap.x)
      && (!gr.moving && !gr.sizing[0] ==> r.pos.y == f.pos.y)
      && (!gr.moving && !gr.sizing[3] ==> r.pos.x == f.pos.x)
      && (gr.sizing[1] && !gr.sizing[3] ==> r.width == DragEnd(f.pos.x, c.x, gr.gap.x, minW))
      && (gr.sizing[2] ==> r.height == DragEnd(f.pos.y, c.y, gr.gap.y, minH))
  {
  }

  /**
   * Pressing on a frame larger than the minimum and then moving the cursor
   * nowhere leaves the frame where it was: the gaps the press records (the
   * arming of 12_imgui/src/ui.rs:233-252, which is `Armed` with border
   * `b` and title ratio `br`) put every held part back under the cursor.
   */
  lemma {:induction false} HoldStill(f: Frame, c: Vec2, gr: Grip, b: real, br: real, bw: real)
    requires AtRest(gr) && 0.0 <= b && 1.0 <= br && 0.0 <= bw
    requires f.width > b * 2.0 + bw * 4.0 && f.height > b * (br + 1.0)
    ensures Hauled(f, c, Armed(gr, f, c, b, br), b * 2.0 + bw * 4.0, b * (br + 1.0)) == f
  {
    var minW, minH := b * 2.0 + bw * 4.0, b * (br + 1.0);
    var a := Armed(gr, f, c, b, br);
    ArmedSpec(gr, f, c, b, br);
    BandsApart(f, c, b, br);
    var f0 := if a.moving then f.(pos := c.Minus(a.gap)) else f;
    assert f0 == f;
    var f1 := if a.sizing[0] then TopHauled(f0, f, c, a.gap.y, minH) else f0;
    if a.sizing[0] {
      DragStartAtGrab(Span(f.pos.y, f.height), c.y, minH);
    }
    assert f1 == f;
    var f2 := if a.sizing[1] then f1.(width := DragEnd(f.pos.x, c.x, a.gap.x, minW)) else f1;
    if a.sizing[1] {
      DragEndAtGrab(Span(f.pos.x, f.width), c.x, minW);
    }
    assert f2 == f;
    var f3 := if a.sizing[2] then f2.(height := DragEnd(f.pos.y, c.y, a.gap.y, minH)) else f2;
    if a.sizing[2] {
      DragEndAtGrab(Span(f.pos.y, f.height), c.y, minH);
    }
    assert f3 == f;
    if a.sizing[3] {
      DragStartAtGrab(Span(f.pos.x, f.width), c.x, minW);
    }
  }

  /** The positions `t` of a window's subtree with its close, maximize and minimize buttons moved across to `slots` by `set_local_pos`. */
  function KidsAnchored(t: PosTree, slots: (real, real, real)): (r: PosTree)
    requires 3 <= |t.kids|
    ensures |r.kids| == |t.kids|
  {
    t.(kids := t.kids[0 := SetLocal(t.kids[0], Some(slots.0), None)]
      [1 := SetLocal(t.kids[1], Some(slots.1), None)]
      [2 := SetLocal(t.kids[2], Some(slots.2), None)])
  }

  /**
   * The positions `t` of the focused window's subtree after the drag of
   * `on_cursor_pos_event` with grip `gr` that left the window's corner at
   * `p`: the window is relocated on each axis that the title band or a
   * start edge (the top one down, the left one across) moves, and after a
   * resize its buttons are moved across to `slots`.
   */
  function HauledTree(t: PosTree, gr: Grip, p: Vec2, slots: (real, real, real)): (r: PosTree)
    requires |gr.sizing| == 4 && 3 <= |t.kids|
    ensures |r.kids| == |t.kids|
  {
    var c := SetLocal(t, if gr.moving || gr.sizing[3] then Some(p.x) else None, if gr.moving || gr.sizing[0] then Some(p.y) else None);
    if Resizing(gr) then KidsAnchored(c, slots) else c
  }

  /**
   * What the drag does to the positions: the window's base stays; its local
   * position is the corner on every axis something moved and the old one on
   * the others; after a resize the buttons sit across at their slots; and
   * every other child keeps its local position, so that only its absolute
   * position follows the window.
   */
  lemma HauledTreeSpec(t: PosTree, gr: Grip, p: Vec2, slots: (real, real, real))
    requires |gr.sizing| == 4 && 3 <= |t.kids|
    ensures var r := HauledTree(t, gr, p, slots);
      && r.base == t.base
      && r.local == Vec2(if gr.moving || gr.sizing[3] then p.x else t.local.x, if gr.moving || gr.sizing[0] then p.y else t.local.y)
      && (Resizing(gr) ==> (r.kids[0].local.x, r.kids[1].local.x, r.kids[2].local.x) == slots)
      && (Resizing(gr) ==> forall j :: 0 <= j < 3 ==> r.kids[j].local.y == t.kids[j].local.y)
      && forall j :: 0 <= j < |t.kids| && (3 <= j || !Resizing(gr)) ==> r.kids[j].local == t.kids[j].local
  {
    var x, y := if gr.moving || gr.sizing[3] then Some(p.x) else None, if gr.moving || gr.sizing[0] then Some(p.y) else None;
    var c := SetLocal(t, x, y);
    SetLocalSpec(t, x, y);
    assert c.local == Vec2(if x.Some? then p.x else t.local.x, if y.Some? then p.y else t.local.y);
    forall j | 0 <= j < |t.kids|
      ensures c.kids[j].local == t.kids[j].local
    {
    }
    if Resizing(gr) {
      KidsAnchoredSpec(c, slots);
    }
  }

  /** Anchoring moves the three buttons across to their slots and leaves the node and its other children alone. */
  lemma KidsAnchoredSpec(t: PosTree, slots: (real, real, real))
    requires 3 <= |t.kids|
    ensures var r := KidsAnchored(t, slots);
      && (r.local, r.base, r.global) == (t.local, t.base, t.global)
      && (r.kids[0].local.x, r.kids[1].local.x, r.kids[2].local.x) == slots
      && (forall j :: 0 <= j < 3 ==> r.kids[j].local.y == t.kids[j].local.y)
      && forall j :: 3 <= j < |t.kids| ==> r.kids[j] == t.kids[j]
  {
    SetLocalSpec(t.kids[0], Some(slots.0), None);
    SetLocalSpec(t.kids[1], Some(slots.1), None);
    SetLocalSpec(t.kids[2], Some(slots.2), None);
  }

  /** The views after window `h`, if any, ran `mouse_up`. */
  function ReleasedAt(vs: seq<ChildView>, h: Option<nat>): (r: seq<ChildView>)
    requires h.Some? ==> h.value < |vs|
    ensures |r| == |vs| && RectsOf(r) == RectsOf(vs)
    ensures h.None? ==> r == vs
    ensures h.Some? ==> !r[h.value].look.pressed && forall j :: 0 <= j < |vs| && j != h.value ==> r[j] == vs[j]
  {
    if h.Some? then ReleaseAt(vs, h.value) else vs
  }

  /** A second release of the same window changes no view further: its release callback sets the same colour again. */
  lemma ReleaseTwice(vs: seq<ChildView>, h: Option<nat>)
    requires h.Some? ==> h.value < |vs|
    ensures ReleasedAt(ReleasedAt(vs, h), h) == ReleasedAt(vs, h)
  {
  }

  // ---------------------------------------------------------------------
  // The close button. The release tests the pressed flag of the focused
  // window's first child (12_imgui/src/ui.rs:262), the slot where the close
  // button was created; but the press has already moved the pressed child to
  // the end of the list (`mouse_down` and `bring_to_front`,
  // 12_imgui/src/ui/object.rs:511-519, 589-611).

  /**
   * A press on the close button, child 0, followed by a release with the
   * window's hover anywhere: the first child is then the button that was
   * second, so with that button up the test finds nothing pressed, both
   * before and after `mouse_up`, and the window stays open.
   */
  lemma CloseButtonAsWrittenKeepsWindow(vs: seq<ChildView>, h: Option<nat>)
    requires 2 <= |vs| && !vs[1].look.pressed && (h.Some? ==> h.value < |vs|)
    ensures !MoveToEnd(PressAt(vs, 0), 0)[0].look.pressed
    ensures !ReleasedAt(MoveToEnd(PressAt(vs, 0), 0), h)[0].look.pressed
  {
    var p := MoveToEnd(PressAt(vs, 0), 0);
    assert p[0] == vs[1];
  }

  /**
   * The close test the release evidently intends: the focused window closes
   * when the release lands on its close button while that button is held.
   * The button is found by its id `closeId` wherever the presses have moved
   * it, and its flag is read before `mouse_up` releases it; `ids` and `vs`
   * are the window's children's ids and views, and `h` is its hover.
   */
  function ClosesOnRelease(ids: seq<nat>, vs: seq<ChildView>, h: Option<nat>, closeId: nat): (r: bool)
    requires |ids| == |vs|
    ensures r ==> exists k :: 0 <= k < |ids| && ids[k] == closeId && vs[k].look.pressed
  {
    h.Some? && h.value < |vs| && ids[h.value] == closeId && vs[h.value].look.pressed
  }

  /**
   * With the intended test, a press on child `k` followed by a release
   * before the cursor moves (the hover has followed the child to the end)
   * closes the window exactly when child `k` is the close button; and a
   * window whose close button is up is never closed.
   */
  lemma PressedCloseCloses(ids: seq<nat>, vs: seq<ChildView>, k: nat, closeId: nat)
    requires |ids| == |vs| && k < |vs|
    ensures FixIndex(Some(k), k, |vs|) == Some(|vs| - 1)
    ensures ClosesOnRelease(MoveToEnd(ids, k), MoveToEnd(PressAt(vs, k), k), FixIndex(Some(k), k, |vs|), closeId) <==> ids[k] == closeId
    ensures (forall j :: 0 <= j < |vs| && ids[j] == closeId ==> !vs[j].look.pressed) ==>
      forall h: Option<nat> :: !ClosesOnRelease(ids, vs, h, closeId)
  {
    var n := |vs|;
    assert MoveToEnd(ids, k)[n - 1] == ids[k];
    assert MoveToEnd(PressAt(vs, k), k)[n - 1] == PressAt(vs, k)[k];
  }

  /**
   * A hover change on views `vs` that agree with `ws` in looks and callbacks,
   * and entirely below the last entry, acts on the looks as it would on `ws`
   * and leaves the rectangles below the last entry as in `ws`.
   */
  lemma HoverOnDragged(vs: seq<ChildView>, ws: seq<ChildView>, f: Fired)
    requires |vs| == |ws| && Faces(vs) == Faces(ws)
    requires 0 < |vs| ==> vs[..|vs| - 1] == ws[..|ws| - 1]
    requires f.entered.Some? ==> f.entered.value < |vs|
    requires f.left.Some? ==> f.left.value < |vs|
    requires f.entered.Some? && f.left.Some? ==> f.entered != f.left
    ensures Faces(HoverViews(vs, f)) == Faces(HoverViews(ws, f))
    ensures 0 < |vs| ==> RectsOf(HoverViews(vs, f))[..|vs| - 1] == RectsOf(ws)[..|ws| - 1]
  {
    FacesOfHover(vs, ws, f);
    if 0 < |vs| {
      assert RectsOf(vs)[..|vs| - 1] == RectsOf(vs[..|vs| - 1]);
      assert RectsOf(ws)[..|ws| - 1] == RectsOf(ws[..|ws| - 1]);
    }
  }

  /** Shape `s` with the drag flags of its root window set to `moving` and `sizing`. */
  function Held(s: ShapeTree, moving: bool, sizing: seq<bool>): ShapeTree
  {
    s.(input := (s.input.0, s.input.1, s.input.2, moving, sizing, s.input.5, s.input.6, s.input.7))
  }

  /** The press neither reads nor writes the drag flags of the pressed window. */
  lemma HeldCommutes(p: PosTree, f: ShapeTree, s: ShapeTree, moving: bool, sizing: seq<bool>)
    ensures PressedPos(p, Held(s, moving, sizing)) == PressedPos(p, s)
    ensures PressedForm(Held(f, moving, sizing), Held(s, moving, sizing)) == Held(PressedForm(f, s), moving, sizing)
  {
    PressedAlike(p, f, Held(s, moving, sizing), s);
  }

  /** Of two updates of entry `i` the later one wins. */
  lemma UpdatedTwice<T>(s: seq<T>, i: nat, a: T, b: T)
    requires i < |s|
    ensures s[i := a][i := b] == s[i := b]
  {
  }

  /** Updating entry `i` with its own value changes nothing. */
  lemma UpdatedSame<T>(s: seq<T>, i: nat)
    requires i < |s|
    ensures s[i := s[i]] == s
  {
  }

  /** Shapes `ss` with the last window, the focused one, at rest: not moving and holding no edge. */
  function Settled(ss: seq<ShapeTree>): (r: seq<ShapeTree>)
    ensures |r| == |ss|
    ensures 0 < |ss| ==> r[..|ss| - 1] == ss[..|ss| - 1] && !r[|ss| - 1].input.3 && r[|ss| - 1].input.4 == [false, false, false, false]
  {
    if |ss| == 0 then ss else ss[|ss| - 1 := Held(ss[|ss| - 1], false, [false, false, false, false])]
  }

  class Manager {
    /** The windows, back to front; the last one is focused. */
    var windows: seq<Object>
    var totalWindows: nat
    const windowColor: Color := FromU8(32, 32, 32, 255)
    /** The width of the frame around a window. */
    const windowFrameSize: real := 8.0
    /** The title band is this many frame widths tall. */
    const windowFrameRatio: real := 3.0
    const windowFrameColor: Color := FromU8(255, 255, 255, 255)
    var onCursorWindow: Option<nat>
    var prevOnCursorWindow: Option<nat>
    /** The frame buffer size at creation; the resize event does not update it. */
    const frameBufferSize: Vec2
    var ratio: Vec2
    var cursorPos: Vec2
    var prevCursorPos: Vec2
    /** The gap between the cursor and the part of the focused window it holds. */
    var windowCursorPosGap: Vec2
    var windowClose: bool
    const closeButtonWidth: real := windowFrameSize * windowFrameRatio * 2.0
    const buttonWidth: real := windowFrameSize * windowFrameRatio
    const buttonHeight: real := windowFrameSize * windowFrameRatio

    ghost var Repr: set<object>

    /**
     * The manager owns its windows as valid, disjoint subtrees, counts them,
     * and every window has its three buttons and sits at the screen origin
     * as its base.
     */
    ghost predicate Valid()
      reads this`Repr, this`windows, this`totalWindows, WindowsRepr()
    {
      && this in Repr
      && Object.Subtrees(windows, WindowsRepr())
      && totalWindows == |windows|
      && forall i :: 0 <= i < |windows| ==> Framed(windows[i])
    }

    /** The part of the footprint that belongs to the windows. */
    ghost function WindowsRepr(): set<object>
      reads this`Repr
    {
      Repr - {this}
    }

    /** Window `w` has its close, maximize and minimize buttons, its base is the origin, and it has a flag per edge. */
    static ghost predicate Framed(w: Object)
      reads w
    {
      3 <= |w.children| && w.basePos == Vec2(0.0, 0.0) && |w.sizing| == 4
    }

    /** What the manager sees of its windows. */
    ghost function Views(): seq<ChildView>
      requires Object.Subtrees(windows, WindowsRepr())
      reads this`Repr, this`windows, WindowsRepr()
    {
      Object.Views(windows, WindowsRepr())
    }

    /** The positions of the windows' subtrees. */
    ghost function Snapshots(): seq<PosTree>
      requires Object.Subtrees(windows, WindowsRepr())
      reads this`Repr, this`windows, WindowsRepr()
    {
      Object.Snapshots(windows, WindowsRepr())
    }

    /** The sizes, looks and event state of the windows' subtrees. */
    ghost function Shapes(): seq<ShapeTree>
      requires Object.Subtrees(windows, WindowsRepr())
      reads this`Repr, this`windows, WindowsRepr()
    {
      Object.ShapesIn(windows, WindowsRepr())
    }

    /** What hover and button events leave of the windows' subtrees (`Object.Form`). */
    ghost function Forms(): seq<ShapeTree>
      requires Object.Subtrees(windows, WindowsRepr())
      reads this`Repr, this`windows, WindowsRepr()
    {
      Object.FormsIn(windows, WindowsRepr())
    }

    /** The focused window. */
    function Focused(): Object
      requires 0 < |windows|
      reads this`windows
    {
      windows[|windows| - 1]
    }

    /** The frame of window `w`: its screen corner and size. */
    function Outline(w: Object): Frame
      reads w
    {
      Frame(w.globalPos, w.width, w.height)
    }

    /** The drag state of window `w`: its own flags and the manager's gap. */
    function Hold(w: Object): Grip
      reads w, this`windowCursorPosGap
    {
      Grip(w.moving, w.sizing, windowCursorPosGap)
    }

    /** The smallest width a resize leaves: the frame on both sides and four buttons. */
    function MinWidth(): real
    {
      windowFrameSize * 2.0 + buttonWidth * 4.0
    }

    /** The smallest height a resize leaves: the frame, the title band and one frame more. */
    function MinHeight(): real
    {
      windowFrameSize * (windowFrameRatio + 2.0)
    }

    /** The buttons of `w` sit at the right end of its title band (12_imgui/src/ui.rs:201-204). */
    ghost predicate ButtonsAnchored(w: Object)
      requires 3 <= |w.children|
      reads w, w.children
    {
      && w.children[0].localPos.x == w.width - closeButtonWidth - windowFrameSize
      && w.children[1].localPos.x == w.width - closeButtonWidth - buttonWidth - windowFrameSize
      && w.children[2].localPos.x == w.width - closeButtonWidth - buttonWidth - buttonWidth - windowFrameSize
    }

    /** None of the buttons of `w` is pressed. */
    ghost predicate ButtonsUp(w: Object)
      requires 3 <= |w.children|
      reads w, w.children
    {
      !w.children[0].pressed && !w.children[1].pressed && !w.children[2].pressed
    }

    /**
     * The manager's button slots are those of the window widget
     * (`ImguiWindow.ButtonSlots`) with its frame as the border: the close
     * button two buttons wide, then maximize and minimize to its left.
     */
    lemma AnchorsAreWindowSlots(w: Object)
      requires 3 <= |w.children|
      ensures ButtonsAnchored(w) <==> (w.children[0].localPos.x, w.children[1].localPos.x, w.children[2].localPos.x) == ButtonSlots(w.width, windowFrameSize, buttonWidth)
    {
    }

    /** Window `i` is a valid subtree in the windows' part of the footprint, with its buttons. */
    lemma WindowValid(i: nat)
      requires Valid() && i < |windows|
      ensures windows[i] in WindowsRepr() && windows[i].Repr <= WindowsRepr() && windows[i].Valid()
      ensures this !in windows[i].Repr && Framed(windows[i])
    {
    }

    /**
     * Window `i` changed only inside its own footprint, stayed valid and
     * kept its buttons and base, while the window list did not change: the
     * manager is still valid and only the `i`-th view may differ.
     */
    twostate lemma WindowChanged(i: nat)
      requires old(Valid()) && i < |windows|
      requires (windows, Repr, totalWindows) == old((windows, Repr, totalWindows))
      requires windows[i].Valid() && windows[i].Repr == old(windows[i].Repr) && Framed(windows[i])
      requires forall o: object :: o in WindowsRepr() && o !in old(windows[i].Repr) ==> unchanged(o)
      ensures Valid()
      ensures Views() == old(Views())[i := windows[i].View()]
      ensures forall j :: 0 <= j < |windows| && j != i ==> unchanged(windows[j])
    {
      Object.OneChildKept(Sibling(Siblings(windows, WindowsRepr()), i));
    }

    /** Under the same conditions, only window `i`'s positions and shape may differ. */
    twostate lemma WindowTreesChanged(i: nat)
      requires old(Valid()) && i < |windows| && (windows, Repr) == old((windows, Repr))
      requires windows[i].Valid() && windows[i].Repr == old(windows[i].Repr)
      requires forall o: object :: o in WindowsRepr() && o !in old(windows[i].Repr) ==> unchanged(o)
      ensures Object.Subtrees(windows, WindowsRepr())
      ensures Snapshots() == old(Snapshots())[i := windows[i].Snapshot()]
      ensures Shapes() == old(Shapes())[i := windows[i].Shape()]
      ensures Forms() == old(Forms())[i := windows[i].Form()]
    {
      var s := Sibling(Siblings(windows, WindowsRepr()), i);
      Object.OneChildChanged(s);
      Object.ShapesChanged(s);
      Object.FormsChanged(s);
    }

    /** Under the same conditions, when window `i` keeps its positions and its look-masked shape, so do all of them. */
    twostate lemma WindowTreesKept(i: nat)
      requires old(Valid()) && i < |windows| && (windows, Repr) == old((windows, Repr))
      requires windows[i].Valid() && windows[i].Repr == old(windows[i].Repr)
      requires forall o: object :: o in WindowsRepr() && o !in old(windows[i].Repr) ==> unchanged(o)
      requires windows[i].Snapshot() == old(windows[i].Snapshot()) && windows[i].Form() == old(windows[i].Form())
      ensures Object.Subtrees(windows, WindowsRepr())
      ensures Snapshots() == old(Snapshots()) && Forms() == old(Forms())
    {
      var s := Sibling(Siblings(windows, WindowsRepr()), i);
      Object.OneChildChanged(s);
      Object.FormsChanged(s);
    }

    /** Under the same conditions, whether the other windows are all at the manager's ratio does not change. */
    twostate lemma OthersStillAt(i: nat)
      requires old(Valid()) && i < |windows|
      requires (windows, Repr, totalWindows, ratio) == old((windows, Repr, totalWindows, ratio))
      requires windows[i].Valid() && windows[i].Repr == old(windows[i].Repr)
      requires forall o: object :: o in WindowsRepr() && o !in old(windows[i].Repr) ==> unchanged(o)
      ensures forall j :: 0 <= j < |windows| && j != i ==> windows[j].Valid() && (windows[j].AllAt(ratio) <==> old(windows[j].AllAt(ratio)))
    {
      forall j | 0 <= j < |windows| && j != i
        ensures windows[j].Valid() && (windows[j].AllAt(ratio) <==> old(windows[j].AllAt(ratio)))
      {
        assert old(windows[j].Repr !! windows[i].Repr) by {
          if j < i { } else { }
        }
        assert old(windows[j].Valid());
      }
    }

    /** Dropping window `i` leaves valid, disjoint subtrees whose views are the old ones without the `i`-th. */
    static lemma RemovedSubtrees(ws: seq<Object>, R: set<object>, i: nat)
      requires Object.Subtrees(ws, R) && i < |ws|
      ensures Object.Subtrees(RemoveAt(ws, i), R)
      ensures Object.Views(RemoveAt(ws, i), R) == RemoveAt(Object.Views(ws, R), i)
      ensures Object.Snapshots(RemoveAt(ws, i), R) == RemoveAt(Object.Snapshots(ws, R), i)
      ensures Object.ShapesIn(RemoveAt(ws, i), R) == RemoveAt(Object.ShapesIn(ws, R), i)
      ensures Object.FormsIn(RemoveAt(ws, i), R) == RemoveAt(Object.FormsIn(ws, R), i)
    {
      var m := RemoveAt(ws, i);
      forall a, b | 0 <= a < b < |m|
        ensures m[a].Repr !! m[b].Repr
      {
        var a', b' := if a < i then a else a + 1, if b < i then b else b + 1;
        assert m[a] == ws[a'] && m[b] == ws[b'] && a' < b';
      }
    }

    /**
     * `Manager::create` (12_imgui/src/ui.rs:40-75): no windows, no hover,
     * the ratio maps the frame buffer onto two clip units per axis, and the
     * buttons are sized from the frame (close 48, others 24 by 24). The
     * button images are not modelled.
     */
    constructor Create(frameBufferSizeX: real, frameBufferSizeY: real)
      requires frameBufferSizeX != 0.0 && frameBufferSizeY != 0.0
      ensures Valid() && fresh(Repr - {this}) && windows == [] && !windowClose
      ensures frameBufferSize == Vec2(frameBufferSizeX, frameBufferSizeY) && ratio == ClipRatio(frameBufferSizeX, frameBufferSizeY)
      ensures onCursorWindow == None && prevOnCursorWindow == None
      ensures cursorPos == Vec2(0.0, 0.0) && prevCursorPos == Vec2(0.0, 0.0) && windowCursorPosGap == Vec2(0.0, 0.0)
      ensures buttonWidth == windowFrameSize * windowFrameRatio && closeButtonWidth == buttonWidth * 2.0 && buttonHeight == buttonWidth
    {
      windows := [];
      totalWindows := 0;
      onCursorWindow := None;
      prevOnCursorWindow := None;
      frameBufferSize := Vec2(frameBufferSizeX, frameBufferSizeY);
      ratio := Vec2(2.0 / frameBufferSizeX, 2.0 / frameBufferSizeY);
      cursorPos := Vec2(0.0, 0.0);
      prevCursorPos := Vec2(0.0, 0.0);
      windowCursorPosGap := Vec2(0.0, 0.0);
      windowClose := false;
      Repr := {this};
    }

    /**
     * `delete_window` (12_imgui/src/ui.rs:134-146): the last window with
     * that id is removed and the count goes down by one; when no window has
     * it, nothing changes. The hover indices are not adjusted.
     */
    method DeleteWindow(id: nat)
      requires Valid()
      modifies this`windows, this`totalWindows
      ensures Valid()
      ensures onCursorWindow == old(onCursorWindow) && prevOnCursorWindow == old(prevOnCursorWindow)
      ensures LastWithId(IdsOf(old(windows)), id).None? ==> windows == old(windows) && totalWindows == old(totalWindows)
      ensures LastWithId(IdsOf(old(windows)), id).Some? ==>
        && windows == RemoveAt(old(windows), LastWithId(IdsOf(old(windows)), id).value)
        && Views() == RemoveAt(old(Views()), LastWithId(IdsOf(old(windows)), id).value)
        && totalWindows == old(totalWindows) - 1
    {
      var target := FindWindow(id);
      if target.Some? {
        RemoveWindow(target.value);
      }
    }

    /** The search of `delete_window` (12_imgui/src/ui.rs:135-141): a forward scan that keeps the last index whose window has the id. */
    method FindWindow(id: nat) returns (target: Option<nat>)
      ensures target == LastWithId(IdsOf(windows), id)
    {
      ghost var ids := IdsOf(windows);
      target := None;
      for index := 0 to |windows|
        invariant target == LastWithId(ids[..index], id)
      {
        if windows[index].id == id {
          target := Some(index);
        }
        assert ids[..index + 1][..index] == ids[..index];
      }
      assert ids[..|windows|] == ids;
    }

    /** Window `i` leaves the list and the count goes down by one. */
    method RemoveWindow(i: nat)
      requires Valid() && i < |windows|
      modifies this`windows, this`totalWindows
      ensures Valid()
      ensures windows == RemoveAt(old(windows), i) && Views() == RemoveAt(old(Views()), i)
      ensures Snapshots() == RemoveAt(old(Snapshots()), i) && Shapes() == RemoveAt(old(Shapes()), i) && Forms() == RemoveAt(old(Forms()), i)
      ensures totalWindows == old(totalWindows) - 1
    {
      RemovedSubtrees(windows, WindowsRepr(), i);
      windows := RemoveAt(windows, i);
      totalWindows := totalWindows - 1;
    }

    /**
     * `on_frame_buffer_size_event` (12_imgui/src/ui.rs:282-288): the ratio
     * is recomputed from the new size and every window takes it and
     * reshapes, so that every node of every window is at that ratio; the
     * windows keep their views, positions and shapes. The stored frame buffer size is not updated.
     */
    method OnFrameBufferSizeEvent(frameBufferSizeX: real, frameBufferSizeY: real)
      requires Valid() && frameBufferSizeX != 0.0 && frameBufferSizeY != 0.0
      modifies this`ratio, WindowsRepr()
      ensures Valid() && ratio == ClipRatio(frameBufferSizeX, frameBufferSizeY)
      ensures forall i :: 0 <= i < |windows| ==> windows[i].AllAt(ratio)
      ensures Views() == old(Views()) && Snapshots() == old(Snapshots()) && Shapes() == old(Shapes())
    {
      ratio := Vec2(2.0 / frameBufferSizeX, 2.0 / frameBufferSizeY);
      assert Snapshots() == old(Snapshots()) && Shapes() == old(Shapes());
      for i := 0 to |windows|
        invariant Valid() && Views() == old(Views()) && ratio == ClipRatio(frameBufferSizeX, frameBufferSizeY)
        invariant Snapshots() == old(Snapshots()) && Shapes() == old(Shapes())
        invariant forall j :: 0 <= j < i ==> windows[j].AllAt(ratio)
      {
        ReshapeWindow(i);
      }
    }

    /** One step of that loop: window `i` takes the manager's ratio and reshapes. */
    method ReshapeWindow(i: nat)
      requires Valid() && i < |windows|
      modifies windows[i].Repr
      ensures Valid() && Views() == old(Views()) && Snapshots() == old(Snapshots()) && Shapes() == old(Shapes())
      ensures windows[i].AllAt(ratio)
      ensures forall j :: 0 <= j < |windows| && j != i ==> (windows[j].AllAt(ratio) <==> old(windows[j].AllAt(ratio)))
    {
      WindowValid(i);
      windows[i].Rescale(ratio);
      WindowChanged(i);
      WindowTreesChanged(i);
      OthersStillAt(i);
    }

    /**
     * `to_front_window` (12_imgui/src/ui.rs:290-311): on a non-empty list,
     * window `index` is removed and pushed on top, and both hover indices
     * are repaired: one above `index` moves down by one, one at `index`
     * follows the window to the top, one below it stays. An empty list is
     * left alone.
     */
    method ToFrontWindow(index: nat)
      requires Valid() && (0 < |windows| ==> index < |windows|)
      modifies this`windows, this`onCursorWindow, this`prevOnCursorWindow
      ensures Valid()
      ensures |old(windows)| == 0 ==> windows == old(windows) && onCursorWindow == old(onCursorWindow) && prevOnCursorWindow == old(prevOnCursorWindow)
      ensures 0 < |old(windows)| ==>
        && windows == MoveToEnd(old(windows), index)
        && Views() == MoveToEnd(old(Views()), index)
        && Snapshots() == MoveToEnd(old(Snapshots()), index)
        && Shapes() == MoveToEnd(old(Shapes()), index)
        && Forms() == MoveToEnd(old(Forms()), index)
        && onCursorWindow == FixIndex(old(onCursorWindow), index, |windows|)
        && prevOnCursorWindow == FixIndex(old(prevOnCursorWindow), index, |windows|)
    {
      if 0 < |windows| {
        RaiseWindow(index);
      }
    }

    /**
     * The body of `to_front_window` on a non-empty list
     * (12_imgui/src/ui.rs:292-309): `remove(index)`, then `push`, and
     * both hover indices repaired as `FixIndex` says.
     */
    method RaiseWindow(index: nat)
      requires Valid() && index < |windows|
      modifies this`windows, this`onCursorWindow, this`prevOnCursorWindow
      ensures Valid()
      ensures windows == MoveToEnd(old(windows), index)
      ensures Views() == MoveToEnd(old(Views()), index)
      ensures Snapshots() == MoveToEnd(old(Snapshots()), index) && Shapes() == MoveToEnd(old(Shapes()), index)
      ensures Forms() == MoveToEnd(old(Forms()), index)
      ensures onCursorWindow == FixIndex(old(onCursorWindow), index, |windows|)
      ensures prevOnCursorWindow == FixIndex(old(prevOnCursorWindow), index, |windows|)
    {
      Object.MovedSubtrees(windows, WindowsRepr(), index);
      windows, onCursorWindow, prevOnCursorWindow := MoveToEnd(windows, index), FixIndex(onCursorWindow, index, |windows|), FixIndex(prevOnCursorWindow, index, |windows|);
      Object.Untouched(Siblings(windows, WindowsRepr()));
    }

    /**
     * `on_cursor_pos_event` (12_imgui/src/ui.rs:157-226): the cursor is
     * stored; unless one of its buttons is pressed, the focused window is
     * dragged as `Hauled` says (and after a resize its buttons are put back
     * at the right end of the title band); then the topmost window whose
     * half-open rectangle holds the cursor gets the event, and when it
     * differs from the one hovered at the previous event it is entered and
     * that one left. The hovered window is recorded as the previous one for
     * the next event. A previous hover that no longer names a window makes
     * the program panic; the precondition excludes it.
     */
    method OnCursorPosEvent(x: real, y: real)
      requires Valid() && (prevOnCursorWindow.Some? ==> prevOnCursorWindow.value < |windows|)
      modifies this`cursorPos, this`prevCursorPos, this`onCursorWindow, this`prevOnCursorWindow, WindowsRepr()
      ensures Valid()
      ensures cursorPos == Vec2(x, y) && prevCursorPos == cursorPos
      ensures 0 < |windows| ==> Outline(Focused()) == if old(Grabbable()) then Hauled(old(Outline(Focused())), cursorPos, old(Hold(Focused())), MinWidth(), MinHeight()) else old(Outline(Focused()))
      ensures onCursorWindow == Topmost(RectsOf(Views()), cursorPos, false) && prevOnCursorWindow == onCursorWindow
      ensures Faces(Views()) == Faces(HoverViews(old(Views()), HoverFires(old(prevOnCursorWindow), onCursorWindow)))
      ensures 0 < |windows| ==> RectsOf(Views())[..|windows| - 1] == RectsOf(old(Views()))[..|windows| - 1]
      ensures 0 < |windows| ==> Snapshots() == old(Snapshots())[|windows| - 1 := Focused().Snapshot()]
      ensures 0 < |windows| ==> Focused().Snapshot() == if old(Grabbable()) then HauledTree(old(Focused().Snapshot()), old(Hold(Focused())), Focused().localPos, ButtonSlots(Focused().width, windowFrameSize, buttonWidth)) else old(Focused().Snapshot())
      ensures 0 < |windows| && old(Grabbable()) ==> Forms() == old(Forms())[|windows| - 1 := old(Forms())[|windows| - 1].(size := (Focused().width, Focused().height))]
      ensures 0 < |windows| && !old(Grabbable()) ==> Forms() == old(Forms())
    {
      DragFocused(x, y);
      HoverAfter(old(Views()));
    }

    /**
     * `TrackHover` after a drag that kept the looks and callbacks of views
     * `ws` and every view below the focused window: the hover change acts as
     * it would have on `ws`, and the windows keep their places.
     */
    method HoverAfter(ghost ws: seq<ChildView>)
      requires Valid() && (prevOnCursorWindow.Some? ==> prevOnCursorWindow.value < |windows|)
      requires |ws| == |windows| && Faces(Views()) == Faces(ws)
      requires 0 < |windows| ==> Views()[..|windows| - 1] == ws[..|windows| - 1]
      modifies this`prevCursorPos, this`onCursorWindow, this`prevOnCursorWindow, WindowsRepr()
      ensures Valid()
      ensures onCursorWindow == Topmost(RectsOf(Views()), cursorPos, false) && prevOnCursorWindow == onCursorWindow && prevCursorPos == cursorPos
      ensures Faces(Views()) == Faces(HoverViews(ws, HoverFires(old(prevOnCursorWindow), onCursorWindow)))
      ensures 0 < |windows| ==> RectsOf(Views())[..|windows| - 1] == RectsOf(ws)[..|windows| - 1]
      ensures Snapshots() == old(Snapshots()) && Forms() == old(Forms())
      ensures 0 < |windows| ==> Outline(Focused()) == old(Outline(Focused())) && Focused().localPos == old(Focused().localPos)
    {
      ghost var dragged := Views();
      TrackHover();
      HoverOnDragged(dragged, ws, HoverFires(old(prevOnCursorWindow), onCursorWindow));
    }

    /** None of the focused window's buttons is pressed, so the drag may run (12_imgui/src/ui.rs:160). */
    ghost predicate Grabbable()
      requires Valid() && 0 < |windows|
      reads this`Repr, this`windows, this`totalWindows, WindowsRepr()
    {
      WindowValid(|windows| - 1);
      ButtonsUp(Focused())
    }

    /** The cursor update and the drag part of `on_cursor_pos_event` (12_imgui/src/ui.rs:158-207). */
    method DragFocused(x: real, y: real)
      requires Valid()
      modifies this`cursorPos, WindowsRepr()
      ensures windows == old(windows)
      ensures Valid() && cursorPos == Vec2(x, y)
      ensures 0 < |windows| ==> Outline(Focused()) == if old(Grabbable()) then Hauled(old(Outline(Focused())), cursorPos, old(Hold(Focused())), MinWidth(), MinHeight()) else old(Outline(Focused()))
      ensures 0 < |windows| && old(Grabbable()) && Resizing(old(Hold(Focused()))) ==> ButtonsAnchored(Focused())
      ensures Faces(Views()) == old(Faces(Views()))
      ensures 0 < |windows| ==> Views()[..|windows| - 1] == old(Views())[..|windows| - 1]
      ensures 0 < |windows| ==> Snapshots() == old(Snapshots())[|windows| - 1 := Focused().Snapshot()] && Shapes() == old(Shapes())[|windows| - 1 := Focused().Shape()]
      ensures 0 < |windows| ==> Focused().Snapshot() == if old(Grabbable()) then HauledTree(old(Focused().Snapshot()), old(Hold(Focused())), Focused().localPos, ButtonSlots(Focused().width, windowFrameSize, buttonWidth)) else old(Focused().Snapshot())
      ensures 0 < |windows| ==> Focused().Shape() == if old(Grabbable()) then old(Focused().Shape()).(size := (Focused().width, Focused().height)) else old(Focused().Shape())
      ensures 0 < |windows| && old(Grabbable()) ==> Forms() == old(Forms())[|windows| - 1 := old(Forms())[|windows| - 1].(size := (Focused().width, Focused().height))]
      ensures 0 < |windows| && !old(Grabbable()) ==> Forms() == old(Forms())
    {
      PlaceCursor(x, y);
      if 0 < |windows| {
        HaulIfGrabbable();
      }
    }

    /** The store of the new cursor position that opens `on_cursor_pos_event` (12_imgui/src/ui.rs:158); the windows do not change. */
    method PlaceCursor(x: real, y: real)
      requires Valid()
      modifies this`cursorPos
      ensures windows == old(windows)
      ensures Valid() && cursorPos == Vec2(x, y)
      ensures Views() == old(Views()) && Snapshots() == old(Snapshots()) && Shapes() == old(Shapes()) && Forms() == old(Forms())
      ensures 0 < |windows| ==> Grabbable() == old(Grabbable()) && Outline(Focused()) == old(Outline(Focused())) && Hold(Focused()) == old(Hold(Focused()))
    {
      if 0 < |windows| {
        WindowValid(|windows| - 1);
      }
      cursorPos := Vec2(x, y);
      Object.Untouched(Siblings(windows, WindowsRepr()));
    }

    /** The drag of the focused window, which runs only while none of its buttons is pressed (12_imgui/src/ui.rs:160). */
    method HaulIfGrabbable()
      requires Valid() && 0 < |windows|
      modifies WindowsRepr()
      ensures windows == old(windows)
      ensures Valid()
      ensures Outline(Focused()) == if old(Grabbable()) then Hauled(old(Outline(Focused())), cursorPos, old(Hold(Focused())), MinWidth(), MinHeight()) else old(Outline(Focused()))
      ensures old(Grabbable()) && Resizing(old(Hold(Focused()))) ==> ButtonsAnchored(Focused())
      ensures Faces(Views()) == old(Faces(Views()))
      ensures Views()[..|windows| - 1] == old(Views())[..|windows| - 1]
      ensures Snapshots() == old(Snapshots())[|windows| - 1 := Focused().Snapshot()] && Shapes() == old(Shapes())[|windows| - 1 := Focused().Shape()]
      ensures Focused().Snapshot() == if old(Grabbable()) then HauledTree(old(Focused().Snapshot()), old(Hold(Focused())), Focused().localPos, ButtonSlots(Focused().width, windowFrameSize, buttonWidth)) else old(Focused().Snapshot())
      ensures Focused().Shape() == if old(Grabbable()) then old(Focused().Shape()).(size := (Focused().width, Focused().height)) else old(Focused().Shape())
      ensures old(Grabbable()) ==> Forms() == old(Forms())[|windows| - 1 := old(Forms())[|windows| - 1].(size := (Focused().width, Focused().height))]
      ensures !old(Grabbable()) ==> Forms() == old(Forms())
    {
      WindowValid(|windows| - 1);
      var w := windows[|windows| - 1];
      if !w.children[0].pressed && !w.children[1].pressed && !w.children[2].pressed {
        HaulFocused();
      } else {
        UpdatedSame(Snapshots(), |windows| - 1);
        UpdatedSame(Shapes(), |windows| - 1);
      }
    }

    /** The drag of the focused window once it is known to be grabbable. */
    method HaulFocused()
      requires Valid() && 0 < |windows|
      modifies WindowsRepr()
      ensures Valid()
      ensures Outline(Focused()) == Hauled(old(Outline(Focused())), cursorPos, old(Hold(Focused())), MinWidth(), MinHeight())
      ensures Resizing(old(Hold(Focused()))) ==> ButtonsAnchored(Focused())
      ensures Faces(Views()) == old(Faces(Views()))
      ensures Views()[..|windows| - 1] == old(Views())[..|windows| - 1]
      ensures Snapshots() == old(Snapshots())[|windows| - 1 := Focused().Snapshot()] && Shapes() == old(Shapes())[|windows| - 1 := Focused().Shape()]
      ensures Focused().Snapshot() == HauledTree(old(Focused().Snapshot()), old(Hold(Focused())), Focused().localPos, ButtonSlots(Focused().width, windowFrameSize, buttonWidth))
      ensures Focused().Shape() == old(Focused().Shape()).(size := (Focused().width, Focused().height))
      ensures Forms() == old(Forms())[|windows| - 1 := old(Forms())[|windows| - 1].(size := (Focused().width, Focused().height))]
    {
      WindowValid(|windows| - 1);
      var w := windows[|windows| - 1];
      w.FormIsMasked();
      ghost var s := w.Shape();
      Haul(w);
      w.FormIsMasked();
      MaskedSized(s, (w.width, w.height));
      WindowChanged(|windows| - 1);
      WindowTreesChanged(|windows| - 1);
      assert Views()[|windows| - 1].look == old(Views())[|windows| - 1].look;
    }

    /**
     * The drag proper (12_imgui/src/ui.rs:161-205): the frame is captured,
     * then the title band and the four edges take their turns, and after a
     * resize the buttons are re-anchored. Looks, callbacks, flags and the
     * base of the window stay.
     */
    method Haul(w: Object)
      requires w.Valid() && this !in w.Repr && Framed(w)
      modifies w.Repr
      ensures w.Valid() && w.Repr == old(w.Repr) && w.children == old(w.children) && w.basePos == old(w.basePos)
      ensures w.Style() == old(w.Style()) && w.Input() == old(w.Input())
      ensures Outline(w) == Hauled(old(Outline(w)), cursorPos, Hold(w), MinWidth(), MinHeight())
      ensures Resizing(Hold(w)) ==> ButtonsAnchored(w)
      ensures w.Snapshot() == HauledTree(old(w.Snapshot()), Hold(w), w.localPos, ButtonSlots(w.width, windowFrameSize, buttonWidth))
      ensures w.Shape() == old(w.Shape()).(size := (w.width, w.height))
    {
      var f := Outline(w);
      ghost var t0 := w.Snapshot();
      HaulCorner(w, f);
      ghost var x1, y1 := if w.moving then Some(w.localPos.x) else None, if w.moving || w.sizing[0] then Some(w.localPos.y) else None;
      HaulSides(w, f);
      SetLocalTwice(t0, x1, y1, if w.sizing[3] then Some(w.localPos.x) else None, None);
      AnchorIfResized(w);
    }

    /** The title-band and top-edge steps, against the captured frame `f`. */
    method HaulCorner(w: Object, f: Frame)
      requires w.Valid() && this !in w.Repr && Framed(w)
      modifies w.Repr
      ensures w.Valid() && w.Repr == old(w.Repr) && w.children == old(w.children) && w.basePos == old(w.basePos)
      ensures w.Style() == old(w.Style()) && w.Input() == old(w.Input())
      ensures Outline(w) == var f0 := if w.moving then old(Outline(w)).(pos := cursorPos.Minus(windowCursorPosGap)) else old(Outline(w));
        if w.sizing[0] then TopHauled(f0, f, cursorPos, windowCursorPosGap.y, MinHeight()) else f0
      ensures w.localPos.x == if w.moving then cursorPos.x - windowCursorPosGap.x else old(w.localPos.x)
      ensures w.Snapshot() == SetLocal(old(w.Snapshot()), if w.moving then Some(w.localPos.x) else None, if w.moving || w.sizing[0] then Some(w.localPos.y) else None)
      ensures w.Shape() == old(w.Shape()).(size := (w.width, w.height))
    {
      ghost var t0 := w.Snapshot();
      HaulTitle(w);
      ghost var x1, y1 := if w.moving then Some(w.localPos.x) else None, if w.moving then Some(w.localPos.y) else None;
      HaulTop(w, f);
      SetLocalTwice(t0, x1, y1, None, if w.sizing[0] then Some(w.localPos.y) else None);
    }

    /** The right-, bottom- and left-edge steps, against the captured frame `f`. */
    method HaulSides(w: Object, f: Frame)
      requires w.Valid() && this !in w.Repr && Framed(w)
      modifies w.Repr
      ensures w.Valid() && w.Repr == old(w.Repr) && w.children == old(w.children) && w.basePos == old(w.basePos)
      ensures w.Style() == old(w.Style()) && w.Input() == old(w.Input())
      ensures Outline(w) == var f2 := if w.sizing[1] then old(Outline(w)).(width := DragEnd(f.pos.x, cursorPos.x, windowCursorPosGap.x, MinWidth())) else old(Outline(w));
        var f3 := if w.sizing[2] then f2.(height := DragEnd(f.pos.y, cursorPos.y, windowCursorPosGap.y, MinHeight())) else f2;
        if w.sizing[3] then LeftHauled(f3, f, cursorPos, windowCursorPosGap.x, MinWidth()) else f3
      ensures w.localPos.y == old(w.localPos.y)
      ensures w.Snapshot() == SetLocal(old(w.Snapshot()), if w.sizing[3] then Some(w.localPos.x) else None, None)
      ensures w.Shape() == old(w.Shape()).(size := (w.width, w.height))
    {
      HaulRight(w, f);
      HaulBottom(w, f);
      HaulLeft(w, f);
    }

    /** The title-band step (12_imgui/src/ui.rs:165-167): a held title band puts the corner at the cursor minus the gap. */
    method HaulTitle(w: Object)
      requires w.Valid() && this !in w.Repr && Framed(w)
      modifies w.Repr
      ensures w.Valid() && w.Repr == old(w.Repr) && w.children == old(w.children) && w.basePos == old(w.basePos)
      ensures w.Style() == old(w.Style()) && w.Input() == old(w.Input())
      ensures Outline(w) == if w.moving then old(Outline(w)).(pos := cursorPos.Minus(windowCursorPosGap)) else old(Outline(w))
      ensures w.localPos == if w.moving then cursorPos.Minus(windowCursorPosGap) else old(w.localPos)
      ensures w.Snapshot() == SetLocal(old(w.Snapshot()), if w.moving then Some(w.localPos.x) else None, if w.moving then Some(w.localPos.y) else None)
      ensures w.Shape() == old(w.Shape())
    {
      if w.moving {
        w.SetLocalPos(Some(cursorPos.x - windowCursorPosGap.x), Some(cursorPos.y - windowCursorPosGap.y));
      }
    }

    /**
     * The top-edge step (12_imgui/src/ui.rs:168-176): against the captured
     * frame `f`, the top goes to the cursor minus the gap and `f`'s bottom
     * stays, unless that leaves less than the minimum height.
     */
    method HaulTop(w: Object, f: Frame)
      requires w.Valid() && this !in w.Repr && Framed(w)
      modifies w.Repr
      ensures w.Valid() && w.Repr == old(w.Repr) && w.children == old(w.children) && w.basePos == old(w.basePos)
      ensures w.Style() == old(w.Style()) && w.Input() == old(w.Input())
      ensures Outline(w) == if w.sizing[0] then TopHauled(old(Outline(w)), f, cursorPos, windowCursorPosGap.y, MinHeight()) else old(Outline(w))
      ensures w.localPos.x == old(w.localPos.x)
      ensures w.Snapshot() == SetLocal(old(w.Snapshot()), None, if w.sizing[0] then Some(w.localPos.y) else None)
      ensures w.Shape() == old(w.Shape()).(size := (w.width, w.height))
    {
      if w.sizing[0] {
        ghost var s := DragStart(Span(f.pos.y, f.height), cursorPos.y, windowCursorPosGap.y, MinHeight());
        ghost var g := old(Outline(w));
        assert TopHauled(g, f, cursorPos, windowCursorPosGap.y, MinHeight()) == Frame(Vec2(g.pos.x, s.start), g.width, s.extent);
        if MinHeight() < f.height - (cursorPos.y - f.pos.y - windowCursorPosGap.y) {
          w.SetSize(None, Some(f.height - (cursorPos.y - f.pos.y - windowCursorPosGap.y)));
          w.SetLocalPos(None, Some(cursorPos.y - windowCursorPosGap.y));
        } else {
          w.SetSize(None, Some(MinHeight()));
          w.SetLocalPos(None, Some(f.pos.y + f.height - MinHeight()));
        }
      }
    }

    /** The right-edge step (12_imgui/src/ui.rs:177-183): the width reaches from the captured left to the cursor plus the gap, but not below the minimum. */
    method HaulRight(w: Object, f: Frame)
      requires w.Valid() && this !in w.Repr && Framed(w)
      modifies w.Repr
      ensures w.Valid() && w.Repr == old(w.Repr) && w.children == old(w.children) && w.basePos == old(w.basePos)
      ensures w.Style() == old(w.Style()) && w.Input() == old(w.Input())
      ensures Outline(w) == if w.sizing[1] then old(Outline(w)).(width := DragEnd(f.pos.x, cursorPos.x, windowCursorPosGap.x, MinWidth())) else old(Outline(w))
      ensures w.localPos == old(w.localPos) && w.Snapshot() == old(w.Snapshot())
      ensures w.Shape() == old(w.Shape()).(size := (w.width, w.height))
    {
      if w.sizing[1] {
        if MinWidth() < cursorPos.x - f.pos.x + windowCursorPosGap.x {
          w.SetSize(Some(cursorPos.x - f.pos.x + windowCursorPosGap.x), None);
        } else {
          w.SetSize(Some(MinWidth()), None);
        }
      }
    }

    /** The bottom-edge step (12_imgui/src/ui.rs:184-190): the height reaches from the captured top to the cursor plus the gap, but not below the minimum. */
    method HaulBottom(w: Object, f: Frame)
      requires w.Valid() && this !in w.Repr && Framed(w)
      modifies w.Repr
      ensures w.Valid() && w.Repr == old(w.Repr) && w.children == old(w.children) && w.basePos == old(w.basePos)
      ensures w.Style() == old(w.Style()) && w.Input() == old(w.Input())
      ensures Outline(w) == if w.sizing[2] then old(Outline(w)).(height := DragEnd(f.pos.y, cursorPos.y, windowCursorPosGap.y, MinHeight())) else old(Outline(w))
      ensures w.localPos == old(w.localPos) && w.Snapshot() == old(w.Snapshot())
      ensures w.Shape() == old(w.Shape()).(size := (w.width, w.height))
    {
      if w.sizing[2] {
        if MinHeight() < cursorPos.y - f.pos.y + windowCursorPosGap.y {
          w.SetSize(None, Some(cursorPos.y - f.pos.y + windowCursorPosGap.y));
        } else {
          w.SetSize(None, Some(MinHeight()));
        }
      }
    }

    /**
     * The left-edge step (12_imgui/src/ui.rs:191-199): against the captured
     * frame `f`, the left edge goes to the cursor minus the gap and `f`'s
     * right stays, unless that leaves less than the minimum width.
     */
    method HaulLeft(w: Object, f: Frame)
      requires w.Valid() && this !in w.Repr && Framed(w)
      modifies w.Repr
      ensures w.Valid() && w.Repr == old(w.Repr) && w.children == old(w.children) && w.basePos == old(w.basePos)
      ensures w.Style() == old(w.Style()) && w.Input() == old(w.Input())
      ensures Outline(w) == if w.sizing[3] then LeftHauled(old(Outline(w)), f, cursorPos, windowCursorPosGap.x, MinWidth()) else old(Outline(w))
      ensures w.localPos.y == old(w.localPos.y)
      ensures w.Snapshot() == SetLocal(old(w.Snapshot()), if w.sizing[3] then Some(w.localPos.x) else None, None)
      ensures w.Shape() == old(w.Shape()).(size := (w.width, w.height))
    {
      if w.sizing[3] {
        ghost var s := DragStart(Span(f.pos.x, f.width), cursorPos.x, windowCursorPosGap.x, MinWidth());
        ghost var g := old(Outline(w));
        assert LeftHauled(g, f, cursorPos, windowCursorPosGap.x, MinWidth()) == Frame(Vec2(s.start, g.pos.y), s.extent, g.height);
        if MinWidth() < f.width - (cursorPos.x - f.pos.x - windowCursorPosGap.x) {
          w.SetSize(Some(f.width - (cursorPos.x - f.pos.x - windowCursorPosGap.x)), None);
          w.SetLocalPos(Some(cursorPos.x - windowCursorPosGap.x), None);
        } else {
          w.SetSize(Some(MinWidth()), None);
          w.SetLocalPos(Some(f.pos.x + f.width - MinWidth()), None);
        }
      }
    }

    /** The button step (12_imgui/src/ui.rs:200-205): after a resize each button goes back to its slot for the new width. */
    method AnchorIfResized(w: Object)
      requires w.Valid() && Framed(w)
      modifies w.Repr
      ensures w.Valid() && unchanged(w)
      ensures Resizing(Hold(w)) ==> ButtonsAnchored(w)
      ensures w.Snapshot() == if Resizing(Hold(w)) then KidsAnchored(old(w.Snapshot()), ButtonSlots(w.width, windowFrameSize, buttonWidth)) else old(w.Snapshot())
      ensures w.Shape() == old(w.Shape())
    {
      if w.sizing[0] || w.sizing[1] || w.sizing[2] || w.sizing[3] {
        AnchorButtons(w);
      }
    }

    /** The three button moves of that step. */
    method AnchorButtons(w: Object)
      requires w.Valid() && Framed(w)
      modifies w.Repr
      ensures w.Valid() && unchanged(w)
      ensures ButtonsAnchored(w)
      ensures w.Snapshot() == KidsAnchored(old(w.Snapshot()), ButtonSlots(w.width, windowFrameSize, buttonWidth))
      ensures w.Shape() == old(w.Shape())
    {
      var width := w.width;
      ghost var sl := ButtonSlots(width, windowFrameSize, buttonWidth);
      ghost var k0 := Object.Snapshots(w.children, w.KidsRepr());
      AnchorButton(w, 0, width - closeButtonWidth - windowFrameSize);
      ghost var k1 := k0[0 := SetLocal(k0[0], Some(sl.0), None)];
      assert Object.Snapshots(w.children, w.KidsRepr()) == k1;
      AnchorButton(w, 1, width - closeButtonWidth - buttonWidth - windowFrameSize);
      ghost var k2 := k1[1 := SetLocal(k0[1], Some(sl.1), None)];
      assert Object.Snapshots(w.children, w.KidsRepr()) == k2;
      AnchorButton(w, 2, width - closeButtonWidth - buttonWidth - buttonWidth - windowFrameSize);
      assert Object.Snapshots(w.children, w.KidsRepr()) == k2[2 := SetLocal(k0[2], Some(sl.2), None)];
    }

    /** Button `k` of window `w` takes local x position `x`; nothing else of `w` or its other children changes. */
    static method AnchorButton(w: Object, k: nat, x: real)
      requires w.Valid() && k < |w.children|
      modifies w.children[k].Repr
      ensures w.Valid() && unchanged(w) && w.children[k].localPos.x == x
      ensures forall j :: 0 <= j < |w.children| && j != k ==> unchanged(w.children[j])
      ensures Object.Snapshots(w.children, w.KidsRepr()) == old(Object.Snapshots(w.children, w.KidsRepr()))[k := SetLocal(old(w.children[k].Snapshot()), Some(x), None)]
      ensures w.Shape() == old(w.Shape())
    {
      w.ChildValid(k);
      w.children[k].SetLocalPos(Some(x), None);
      w.ChildChanged(k);
      Object.ShapesChanged(Sibling(Siblings(w.children, w.KidsRepr()), k));
    }

    /** The hover part of `on_cursor_pos_event` (12_imgui/src/ui.rs:208-225): hit test, the hit window's event, the hover change, and the record for the next event. */
    method TrackHover()
      requires Valid() && (prevOnCursorWindow.Some? ==> prevOnCursorWindow.value < |windows|)
      modifies this`prevCursorPos, this`onCursorWindow, this`prevOnCursorWindow, WindowsRepr()
      ensures Valid()
      ensures onCursorWindow == Topmost(RectsOf(Views()), cursorPos, false)
      ensures prevOnCursorWindow == onCursorWindow && prevCursorPos == cursorPos
      ensures Views() == HoverViews(old(Views()), HoverFires(old(prevOnCursorWindow), onCursorWindow))
      ensures Snapshots() == old(Snapshots()) && Forms() == old(Forms())
      ensures 0 < |windows| ==> Outline(Focused()) == old(Outline(Focused())) && Focused().localPos == old(Focused().localPos)
    {
      var hit := HitWindow();
      HoverWindows(hit);
      RecordHover(hit);
      if 0 < |windows| {
        assert Focused().Snapshot() == old(Snapshots())[|windows| - 1];
      }
    }

    /** The reverse scan and the hit window's own cursor event (12_imgui/src/ui.rs:208-215). */
    method HitWindow() returns (hit: Option<nat>)
      requires Valid()
      modifies WindowsRepr()
      ensures Valid() && Views() == old(Views()) && Snapshots() == old(Snapshots()) && Forms() == old(Forms())
      ensures hit == Topmost(RectsOf(Views()), cursorPos, false)
      ensures hit.Some? ==> hit.value < |windows|
      ensures 0 < |windows| ==> Outline(Focused()) == old(Outline(Focused()))
    {
      hit := ScanWindows();
      if hit.Some? {
        CursorWindow(hit.value);
        assert Views()[|windows| - 1].rect == old(Views())[|windows| - 1].rect;
      }
    }

    /** The reverse scan: the topmost window whose half-open rectangle holds the cursor. */
    method ScanWindows() returns (hit: Option<nat>)
      requires Valid()
      ensures hit == Topmost(RectsOf(Views()), cursorPos, false)
    {
      var i := |windows|;
      while i > 0
        invariant 0 <= i <= |windows|
        invariant Topmost(RectsOf(Views()), cursorPos, false) == TopmostBelow(RectsOf(Views()), cursorPos, false, i)
      {
        i := i - 1;
        var w := windows[i];
        if w.globalPos.x <= cursorPos.x && cursorPos.x < w.globalPos.x + w.width && w.globalPos.y <= cursorPos.y && cursorPos.y < w.globalPos.y + w.height {
          return Some(i);
        }
      }
      return None;
    }

    /** The hit window `i` gets the cursor event; what the manager sees of it does not change. */
    method CursorWindow(i: nat)
      requires Valid() && i < |windows|
      modifies windows[i].Repr
      ensures Valid() && Views() == old(Views()) && Snapshots() == old(Snapshots()) && Forms() == old(Forms())
    {
      WindowValid(i);
      windows[i].OnCursorPosEvent(cursorPos);
      WindowChanged(i);
      WindowTreesKept(i);
    }

    /** The hover change (12_imgui/src/ui.rs:216-223): when `hit` differs from the previous hover, it is entered and that one left. */
    method HoverWindows(hit: Option<nat>)
      requires Valid() && (hit.Some? ==> hit.value < |windows|)
      requires prevOnCursorWindow.Some? ==> prevOnCursorWindow.value < |windows|
      modifies WindowsRepr()
      ensures Valid()
      ensures Views() == HoverViews(old(Views()), HoverFires(prevOnCursorWindow, hit))
      ensures Snapshots() == old(Snapshots()) && Forms() == old(Forms())
      ensures 0 < |windows| ==> Outline(Focused()) == old(Outline(Focused()))
    {
      if hit != prevOnCursorWindow {
        if hit.Some? {
          EnterWindow(hit.value);
        }
        if prevOnCursorWindow.Some? {
          LeaveWindow(prevOnCursorWindow.value);
        }
        if 0 < |windows| {
          assert Views()[|windows| - 1].rect == old(Views())[|windows| - 1].rect;
        }
      }
    }

    /** Window `i` runs `mouse_on`. */
    method EnterWindow(i: nat)
      requires Valid() && i < |windows|
      modifies windows[i].Repr
      ensures Valid()
      ensures Views() == old(Views())[i := old(Views())[i].(look := Entered(old(Views())[i].look, old(Views())[i].events))]
      ensures Snapshots() == old(Snapshots()) && Forms() == old(Forms())
    {
      WindowValid(i);
      windows[i].MouseOn();
      WindowChanged(i);
      WindowTreesKept(i);
    }

    /** Window `i` runs `mouse_off`. */
    method LeaveWindow(i: nat)
      requires Valid() && i < |windows|
      modifies windows[i].Repr
      ensures Valid()
      ensures Views() == old(Views())[i := old(Views())[i].(look := Left(old(Views())[i].look, old(Views())[i].events))]
      ensures Snapshots() == old(Snapshots()) && Forms() == old(Forms())
    {
      WindowValid(i);
      windows[i].MouseOff();
      WindowChanged(i);
      WindowTreesKept(i);
    }

    /** The last step of `on_cursor_pos_event` (12_imgui/src/ui.rs:224-225): `hit` becomes the current and the previous hover, and the cursor the previous one. */
    method RecordHover(hit: Option<nat>)
      requires Valid()
      modifies this`prevCursorPos, this`onCursorWindow, this`prevOnCursorWindow
      ensures Valid() && Views() == old(Views()) && Snapshots() == old(Snapshots()) && Shapes() == old(Shapes()) && Forms() == old(Forms())
      ensures onCursorWindow == hit && prevOnCursorWindow == hit && prevCursorPos == cursorPos
    {
      onCursorWindow, prevOnCursorWindow, prevCursorPos := hit, hit, cursorPos;
      Object.Untouched(Siblings(windows, WindowsRepr()));
    }

    /**
     * `on_mouse_down_event` (12_imgui/src/ui.rs:228-280). On a press over a
     * window, that window is brought to the front, its drag is armed from
     * where the cursor sits on its frame (`Armed`, with the frame as border
     * and a title band one frame taller than the buttons), and it runs
     * `mouse_down`. On a release, the hovered window runs `mouse_up`; then
     * the focused window records whether its first child is still pressed,
     * is disarmed and has its three buttons released, and if that child was
     * pressed it is popped and the previous hover forgotten. A hovered index
     * that names no window makes the program panic; the precondition
     * excludes it, and the close flag is always down between events.
     */
    method OnMouseDownEvent(mouseDown: bool)
      requires Valid() && !windowClose && (onCursorWindow.Some? ==> onCursorWindow.value < |windows|)
      modifies this`windows, this`totalWindows, this`onCursorWindow, this`prevOnCursorWindow, this`windowCursorPosGap, this`windowClose, WindowsRepr()
      ensures Valid() && !windowClose
      ensures mouseDown ==> PressedOnCursor()
      ensures !mouseDown ==>
        && |windows| == |old(windows)| - (if old(CloseArmed()) then 1 else 0)
        && windows == old(windows)[..|windows|]
        && Views() == ReleasedAt(old(Views()), old(onCursorWindow))[..|windows|]
        && Snapshots() == old(Snapshots())[..|windows|] && Forms() == Settled(old(Forms()))[..|windows|]
        && onCursorWindow == old(onCursorWindow)
        && prevOnCursorWindow == (if old(CloseArmed()) then None else old(prevOnCursorWindow))
        && (!old(CloseArmed()) && 0 < |windows| ==> AtRest(Hold(Focused())) && ButtonsUp(Focused()))
    {
      if mouseDown {
        PressHovered();
      } else {
        ReleaseAll();
      }
    }

    /** The press branch of `on_mouse_down_event` (12_imgui/src/ui.rs:229-232): only a press over a window does anything. */
    method PressHovered()
      requires Valid() && (onCursorWindow.Some? ==> onCursorWindow.value < |windows|)
      modifies this`windows, this`onCursorWindow, this`prevOnCursorWindow, this`windowCursorPosGap, WindowsRepr()
      ensures Valid() && PressedOnCursor()
    {
      if onCursorWindow.Some? {
        PressWindow(onCursorWindow.value);
      }
    }

    /**
     * The state a press leaves behind (12_imgui/src/ui.rs:229-253). Over no
     * window nothing changes. Over window `i`, that window is moved to the
     * top and stays hovered, takes its grip from where the press landed,
     * and is pressed down the path the cursor hovers; the other windows keep
     * their trees in the new order.
     */
    twostate predicate PressedOnCursor()
      requires old(Valid()) && Valid()
      requires old(onCursorWindow).Some? ==> old(onCursorWindow).value < old(|windows|)
      reads this, WindowsRepr()
    {
      if old(onCursorWindow).None? then
        && windows == old(windows) && onCursorWindow == old(onCursorWindow) && prevOnCursorWindow == old(prevOnCursorWindow)
        && Views() == old(Views()) && Snapshots() == old(Snapshots()) && Shapes() == old(Shapes()) && Forms() == old(Forms())
      else
        var i := old(onCursorWindow).value;
        && windows == MoveToEnd(old(windows), i)
        && onCursorWindow == Some(|windows| - 1)
        && prevOnCursorWindow == FixIndex(old(prevOnCursorWindow), i, |windows|)
        && Views() == PressAt(MoveToEnd(old(Views()), i), |windows| - 1)
        && Hold(Focused()) == Armed(old(Hold(windows[i])), old(Outline(windows[i])), cursorPos, windowFrameSize, windowFrameRatio + 1.0)
        && Snapshots() == MoveToEnd(old(Snapshots()), i)[|windows| - 1 := PressedPos(old(Snapshots())[i], old(Shapes())[i])]
        && Forms() == MoveToEnd(old(Forms()), i)[|windows| - 1 := Held(PressedForm(old(Forms())[i], old(Shapes())[i]), Focused().moving, Focused().sizing)]
        && Shapes()[..|windows| - 1] == MoveToEnd(old(Shapes()), i)[..|windows| - 1]
    }

    /**
     * The focused window's first child will still be pressed once the
     * hovered window has run `mouse_up`: it is pressed now, and the release
     * does not reach it through the focused window's hover.
     */
    ghost predicate CloseArmed()
      requires Valid() && (onCursorWindow.Some? ==> onCursorWindow.value < |windows|)
      reads this`Repr, this`windows, this`totalWindows, this`onCursorWindow, WindowsRepr()
    {
      && 0 < |windows|
      && (WindowValid(|windows| - 1);
          Focused().children[0].pressed && !(onCursorWindow == Some(|windows| - 1) && Focused().onCursorChild == Some(0)))
    }

    /**
     * A focused window whose first child's view is up is not about to be
     * closed, so by `OnMouseDownEvent` the release keeps every window. After
     * a press on the close button that view is the one
     * `CloseButtonAsWrittenKeepsWindow` shows to be up.
     */
    lemma FirstChildUpKeepsWindow()
      requires Valid() && (onCursorWindow.Some? ==> onCursorWindow.value < |windows|) && 0 < |windows|
      requires (WindowValid(|windows| - 1); !Object.Views(Focused().children, Focused().KidsRepr())[0].look.pressed)
      ensures !CloseArmed()
    {
      WindowValid(|windows| - 1);
    }

    /** The press half (12_imgui/src/ui.rs:230-253): raise, arm, `mouse_down`. */
    method PressWindow(index: nat)
      requires Valid() && index < |windows| && onCursorWindow == Some(index)
      modifies this`windows, this`onCursorWindow, this`prevOnCursorWindow, this`windowCursorPosGap, WindowsRepr()
      ensures Valid() && |windows| == old(|windows|)
      ensures onCursorWindow == Some(|windows| - 1)
      ensures prevOnCursorWindow == FixIndex(old(prevOnCursorWindow), index, |windows|)
      ensures Hold(Focused()) == Armed(old(Hold(windows[index])), old(Outline(windows[index])), cursorPos, windowFrameSize, windowFrameRatio + 1.0)
      ensures windows == MoveToEnd(old(windows), index)
      ensures Views() == PressAt(MoveToEnd(old(Views()), index), |windows| - 1)
      ensures Snapshots() == MoveToEnd(old(Snapshots()), index)[|windows| - 1 := PressedPos(old(Snapshots())[index], old(Shapes())[index])]
      ensures Forms() == MoveToEnd(old(Forms()), index)[|windows| - 1 := Held(PressedForm(old(Forms())[index], old(Shapes())[index]), Focused().moving, Focused().sizing)]
      ensures Shapes()[..|windows| - 1] == MoveToEnd(old(Shapes()), index)[..|windows| - 1]
    {
      RaiseHovered(index);
      assert Hold(Focused()) == old(Hold(windows[index])) && Outline(Focused()) == old(Outline(windows[index]));
      PressFocused();
    }

    /** The raise of the press (12_imgui/src/ui.rs:231): the hovered window goes on top and stays hovered. */
    method RaiseHovered(index: nat)
      requires Valid() && index < |windows| && onCursorWindow == Some(index)
      modifies this`windows, this`onCursorWindow, this`prevOnCursorWindow
      ensures Valid() && 0 < |windows| && onCursorWindow == Some(|windows| - 1)
      ensures windows == MoveToEnd(old(windows), index)
      ensures Views() == MoveToEnd(old(Views()), index)
      ensures Snapshots() == MoveToEnd(old(Snapshots()), index) && Shapes() == MoveToEnd(old(Shapes()), index)
      ensures Forms() == MoveToEnd(old(Forms()), index)
      ensures prevOnCursorWindow == FixIndex(old(prevOnCursorWindow), index, |windows|)
    {
      ToFrontWindow(index);
      assert onCursorWindow == FixIndex(Some(index), index, |windows|);
    }

    /**
     * The focused window is armed, then runs `mouse_down`
     * (12_imgui/src/ui.rs:232-253); nothing outside its footprint changes.
     */
    method PressFocused()
      requires Valid() && 0 < |windows| && onCursorWindow == Some(|windows| - 1)
      modifies this`windowCursorPosGap, WindowsRepr()
      ensures Valid() && windows == old(windows) && onCursorWindow == Some(|windows| - 1) && prevOnCursorWindow == old(prevOnCursorWindow)
      ensures Views() == PressAt(old(Views()), |windows| - 1)
      ensures Hold(Focused()) == Armed(old(Hold(Focused())), old(Outline(Focused())), cursorPos, windowFrameSize, windowFrameRatio + 1.0)
      ensures Snapshots() == old(Snapshots())[|windows| - 1 := PressedPos(old(Snapshots())[|windows| - 1], old(Shapes())[|windows| - 1])]
      ensures Forms() == old(Forms())[|windows| - 1 := Held(PressedForm(old(Forms())[|windows| - 1], old(Shapes())[|windows| - 1]), Focused().moving, Focused().sizing)]
      ensures Shapes()[..|windows| - 1] == old(Shapes())[..|windows| - 1]
    {
      ghost var t, f, s := Focused().Snapshot(), Focused().Form(), Focused().Shape();
      ghost var ts, ss, fs := Snapshots(), Shapes(), Forms();
      ArmFocused();
      ghost var ts', ss', fs' := Snapshots(), Shapes(), Forms();
      DownFocused();
      var L := |windows| - 1;
      UpdatedTwice(ts, L, ts'[L], Focused().Snapshot());
      UpdatedTwice(ss, L, ss'[L], Focused().Shape());
      UpdatedTwice(fs, L, fs'[L], Focused().Form());
      HeldCommutes(t, f, s, Focused().moving, Focused().sizing);
    }

    /** The arming part of the press (12_imgui/src/ui.rs:233-252), on the focused window. */
    method ArmFocused()
      requires Valid() && 0 < |windows|
      modifies this`windowCursorPosGap, WindowsRepr()
      ensures Valid() && Views() == old(Views())
      ensures Hold(Focused()) == Armed(old(Hold(Focused())), old(Outline(Focused())), cursorPos, windowFrameSize, windowFrameRatio + 1.0)
      ensures Outline(Focused()) == old(Outline(Focused()))
      ensures Snapshots() == old(Snapshots())[|windows| - 1 := Focused().Snapshot()] && Shapes() == old(Shapes())[|windows| - 1 := Focused().Shape()]
      ensures Forms() == old(Forms())[|windows| - 1 := Focused().Form()]
      ensures Focused().Snapshot() == old(Focused().Snapshot()) && Focused().Shape() == Held(old(Focused().Shape()), Focused().moving, Focused().sizing)
      ensures Focused().Form() == Held(old(Focused().Form()), Focused().moving, Focused().sizing)
    {
      WindowValid(|windows| - 1);
      var w := windows[|windows| - 1];
      Arm(w);
      WindowChanged(|windows| - 1);
      WindowTreesChanged(|windows| - 1);
    }

    /**
     * Arming window `w` at the cursor (12_imgui/src/ui.rs:233-252): the
     * title band arms moving and records the gap to the corner; each edge
     * band arms its edge and records the gap to that edge on its axis.
     */
    method Arm(w: Object)
      requires w.Valid() && this !in w.Repr
      modifies w`moving, w`sizing, this`windowCursorPosGap
      ensures w.Valid()
      ensures Hold(w) == Armed(old(Hold(w)), Outline(w), cursorPos, windowFrameSize, windowFrameRatio + 1.0)
      ensures w.Snapshot() == old(w.Snapshot()) && w.Shape() == Held(old(w.Shape()), w.moving, w.sizing) && w.Form() == Held(old(w.Form()), w.moving, w.sizing)
    {
      var f, c, b, br := Outline(w), cursorPos, windowFrameSize, windowFrameRatio + 1.0;
      var g := Hold(w);
      if InTitle(f, c, b, br) {
        g := g.(moving := true, gap := c.Minus(f.pos));
      }
      if OnEdge(f, c, b, 0) {
        g := g.(sizing := g.sizing[0 := true], gap := g.gap.(y := c.y - f.pos.y));
      }
      if OnEdge(f, c, b, 1) {
        g := g.(sizing := g.sizing[1 := true], gap := g.gap.(x := f.pos.x + f.width - c.x));
      }
      if OnEdge(f, c, b, 2) {
        g := g.(sizing := g.sizing[2 := true], gap := g.gap.(y := f.pos.y + f.height - c.y));
      }
      if OnEdge(f, c, b, 3) {
        g := g.(sizing := g.sizing[3 := true], gap := g.gap.(x := c.x - f.pos.x));
      }
      assert g == Armed(Hold(w), f, c, b, br);
      SetHold(w, g);
    }

    /** Window `w`'s flags and the manager's gap take the values of grip `g`. */
    method SetHold(w: Object, g: Grip)
      requires w.Valid() && this !in w.Repr && |g.sizing| == 4
      modifies w`moving, w`sizing, this`windowCursorPosGap
      ensures w.Valid() && Hold(w) == g && Outline(w) == old(Outline(w))
      ensures w.Snapshot() == old(w.Snapshot()) && w.Shape() == Held(old(w.Shape()), g.moving, g.sizing) && w.Form() == Held(old(w.Form()), g.moving, g.sizing)
    {
      w.moving, w.sizing, windowCursorPosGap := g.moving, g.sizing, g.gap;
      Object.Untouched(Siblings(w.children, w.KidsRepr()));
    }

    /** The focused window runs `mouse_down` (12_imgui/src/ui.rs:253); nothing outside its footprint changes. */
    method DownFocused()
      requires Valid() && 0 < |windows|
      modifies WindowsRepr()
      ensures Valid()
      ensures Views() == PressAt(old(Views()), |windows| - 1)
      ensures Hold(Focused()) == old(Hold(Focused()))
      ensures Snapshots() == old(Snapshots())[|windows| - 1 := Focused().Snapshot()] && Shapes() == old(Shapes())[|windows| - 1 := Focused().Shape()]
      ensures Forms() == old(Forms())[|windows| - 1 := Focused().Form()]
      ensures Focused().Snapshot() == PressedPos(old(Focused().Snapshot()), old(Focused().Shape()))
      ensures Focused().Form() == PressedForm(old(Focused().Form()), old(Focused().Shape()))
    {
      WindowValid(|windows| - 1);
      var w := windows[|windows| - 1];
      w.MouseDown();
      WindowChanged(|windows| - 1);
      WindowTreesChanged(|windows| - 1);
    }

    /** The release half (12_imgui/src/ui.rs:254-279): `mouse_up` on the hovered window, then the focused window's release, then the pop. */
    method ReleaseAll()
      requires Valid() && !windowClose && (onCursorWindow.Some? ==> onCursorWindow.value < |windows|)
      modifies this`windows, this`totalWindows, this`prevOnCursorWindow, this`windowClose, WindowsRepr()
      ensures Valid() && !windowClose
      ensures |windows| == |old(windows)| - (if old(CloseArmed()) then 1 else 0)
      ensures windows == old(windows)[..|windows|]
      ensures Views() == ReleasedAt(old(Views()), old(onCursorWindow))[..|windows|]
      ensures Snapshots() == old(Snapshots())[..|windows|] && Forms() == Settled(old(Forms()))[..|windows|]
      ensures prevOnCursorWindow == if old(CloseArmed()) then None else old(prevOnCursorWindow)
      ensures !old(CloseArmed()) && 0 < |windows| ==> AtRest(Hold(Focused())) && ButtonsUp(Focused())
    {
      UpHovered();
      ReleaseFocused();
      PopIfClosed();
    }

    /** The hovered window, if any, runs `mouse_up` (12_imgui/src/ui.rs:254-256). */
    method UpHovered()
      requires Valid() && (onCursorWindow.Some? ==> onCursorWindow.value < |windows|)
      modifies WindowsRepr()
      ensures windows == old(windows) && Valid()
      ensures Views() == ReleasedAt(old(Views()), onCursorWindow)
      ensures Snapshots() == old(Snapshots()) && Forms() == old(Forms())
      ensures 0 < |windows| ==> Focused().children[0].pressed == old(CloseArmed())
    {
      if onCursorWindow.Some? {
        UpWindow(onCursorWindow.value);
      }
    }

    /** Window `i` runs `mouse_up`; only a hover on its first child releases that child. */
    method UpWindow(i: nat)
      requires Valid() && i < |windows|
      modifies windows[i].Repr
      ensures windows == old(windows) && Valid()
      ensures Views() == ReleaseAt(old(Views()), i)
      ensures Snapshots() == old(Snapshots()) && Forms() == old(Forms())
      ensures windows[i].children[0].pressed == (old(windows[i].children[0].pressed) && old(windows[i].onCursorChild) != Some(0))
      ensures i != |windows| - 1 ==> Focused().children[0].pressed == old(Focused().children[0].pressed)
    {
      WindowValid(i);
      ghost var first := Focused().children[0];
      if i != |windows| - 1 {
        WindowValid(|windows| - 1);
        windows[|windows| - 1].ChildValid(0);
        assert windows[|windows| - 1].Repr !! windows[i].Repr;
        assert first !in windows[i].Repr;
      }
      Up(windows[i]);
      WindowChanged(i);
      WindowTreesKept(i);
    }

    /** Window `w` runs `mouse_up`: its first child stays pressed unless the window's hover is on it. */
    static method Up(w: Object)
      requires w.Valid() && 0 < |w.children|
      modifies w.Repr
      ensures w.Valid() && w.Repr == old(w.Repr) && w.children == old(w.children)
      ensures w.Fixed() == old(w.Fixed()) && w.View() == old(w.View()).(look := Released(old(w.View()).look, old(w.View()).events))
      ensures w.children[0].pressed == (old(w.children[0].pressed) && old(w.onCursorChild) != Some(0))
      ensures w.Snapshot() == old(w.Snapshot()) && w.Form() == old(w.Form())
    {
      w.ChildValid(0);
      assert w.children[0].pressed == Object.Views(w.children, w.KidsRepr())[0].look.pressed;
      w.MouseUp();
      assert w.children[0].pressed == Object.Views(w.children, w.KidsRepr())[0].look.pressed;
    }

    /**
     * The focused window's release (12_imgui/src/ui.rs:259-270): the close
     * flag records whether its first child is pressed, the drag is disarmed
     * and the three buttons are released.
     */
    method ReleaseFocused()
      requires Valid() && !windowClose
      modifies this`windowClose, WindowsRepr()
      ensures windows == old(windows) && Valid() && Views() == old(Views())
      ensures windowClose == (0 < |windows| && old(Focused().children[0].pressed))
      ensures 0 < |windows| ==> AtRest(Hold(Focused())) && ButtonsUp(Focused())
      ensures Snapshots() == old(Snapshots()) && Forms() == Settled(old(Forms()))
    {
      if 0 < |windows| {
        WindowValid(|windows| - 1);
        if windows[|windows| - 1].children[0].pressed {
          windowClose := true;
          Object.Untouched(Siblings(windows, WindowsRepr()));
        }
        SettleFocused();
      }
    }

    /** The focused window is disarmed and its three buttons released (12_imgui/src/ui.rs:264-270). */
    method SettleFocused()
      requires Valid() && 0 < |windows|
      modifies WindowsRepr()
      ensures windows == old(windows) && Valid() && Views() == old(Views())
      ensures AtRest(Hold(Focused())) && ButtonsUp(Focused())
      ensures Snapshots() == old(Snapshots()) && Forms() == Settled(old(Forms()))
    {
      WindowValid(|windows| - 1);
      var w := windows[|windows| - 1];
      Disarm(w);
      UnpressButtons(w);
      WindowChanged(|windows| - 1);
      WindowTreesChanged(|windows| - 1);
      UpdatedSame(old(Snapshots()), |windows| - 1);
    }

    /** Window `w` holds nothing any more. */
    static method Disarm(w: Object)
      requires w.Valid()
      modifies w`moving, w`sizing
      ensures w.Valid() && !w.moving && w.sizing == [false, false, false, false]
      ensures w.Snapshot() == old(w.Snapshot()) && w.Form() == Held(old(w.Form()), false, [false, false, false, false])
    {
      w.moving := false;
      for i := 0 to 4
        invariant w.Valid() && !w.moving
        invariant |w.sizing| == 4 && forall j :: 0 <= j < i ==> !w.sizing[j]
      {
        w.sizing := w.sizing[i := false];
      }
      Object.Untouched(Siblings(w.children, w.KidsRepr()));
    }

    /** The three buttons of window `w` are released; nothing else of `w`, its children or their subtrees changes. */
    static method UnpressButtons(w: Object)
      requires w.Valid() && 3 <= |w.children|
      modifies w.KidsRepr()
      ensures w.Valid() && unchanged(w)
      ensures !w.children[0].pressed && !w.children[1].pressed && !w.children[2].pressed
      ensures w.Snapshot() == old(w.Snapshot()) && w.Form() == old(w.Form())
    {
      for i := 0 to 3
        invariant w.Valid() && unchanged(w)
        invariant forall j :: 0 <= j < i ==> !w.children[j].pressed
        invariant w.Snapshot() == old(w.Snapshot()) && w.Form() == old(w.Form())
      {
        UnpressButton(w, i);
      }
    }

    /** Child `k` of window `w` is released. */
    static method UnpressButton(w: Object, k: nat)
      requires w.Valid() && k < |w.children|
      modifies w.children[k]
      ensures w.Valid() && unchanged(w) && !w.children[k].pressed
      ensures forall j :: 0 <= j < |w.children| && j != k ==> unchanged(w.children[j])
      ensures w.Snapshot() == old(w.Snapshot()) && w.Form() == old(w.Form())
    {
      w.ChildValid(k);
      var c := w.children[k];
      c.pressed := false;
      Object.Untouched(Siblings(c.children, c.KidsRepr()));
      w.ChildChanged(k);
      Object.FormsChanged(Sibling(Siblings(w.children, w.KidsRepr()), k));
    }

    /** A raised close flag pops the focused window and forgets the previous hover (12_imgui/src/ui.rs:273-277). */
    method PopIfClosed()
      requires Valid() && (windowClose ==> 0 < |windows|)
      modifies this`windows, this`totalWindows, this`prevOnCursorWindow, this`windowClose
      ensures Valid() && !windowClose
      ensures windows == old(windows)[..|old(windows)| - (if old(windowClose) then 1 else 0)]
      ensures Views() == old(Views())[..|windows|]
      ensures Snapshots() == old(Snapshots())[..|windows|] && Forms() == old(Forms())[..|windows|]
      ensures prevOnCursorWindow == if old(windowClose) then None else old(prevOnCursorWindow)
      ensures !old(windowClose) && 0 < |windows| ==> Hold(Focused()) == old(Hold(Focused())) && ButtonsUp(Focused()) == old(ButtonsUp(Focused()))
    {
      if windowClose {
        assert RemoveAt(windows, |windows| - 1) == windows[..|windows| - 1];
        assert RemoveAt(Views(), |windows| - 1) == Views()[..|windows| - 1];
        assert RemoveAt(Snapshots(), |windows| - 1) == Snapshots()[..|windows| - 1];
        assert RemoveAt(Forms(), |windows| - 1) == Forms()[..|windows| - 1];
        RemoveWindow(|windows| - 1);
        label Popped:
        windowClose := false;
        prevOnCursorWindow := None;
        Object.Untouched@Popped(Siblings(windows, WindowsRepr()));
      }
    }

    /** A hover index in range names, after `to_front_window(index)`, the window it named before. */
    lemma ToFrontFollows(ws: seq<Object>, index: nat, h: Option<nat>)
      requires index < |ws| && (h.Some? ==> h.value < |ws|)
      ensures FixIndex(h, index, |ws|).Some? == h.Some?
      ensures h.Some? ==> FixIndex(h, index, |ws|).value < |ws| && MoveToEnd(ws, index)[FixIndex(h, index, |ws|).value] == ws[h.value]
    {
      Object.FixedIndexFollows(ws, index, h);
    }
  }
}
