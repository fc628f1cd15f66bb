/**
 * The window widget of the 12_imgui stage (12_imgui/src/ui/window.rs): a
 * frame made of five widgets (background, content box, and the close,
 * maximize and minimize buttons) that the cursor drags by its title band
 * and resizes by its edges, and that routes cursor and button events to
 * the element under the cursor.
 *
 * The program holds the elements through `Rc<RefCell<..>>`; here the window
 * owns them, and their `Repr` sets are disjoint.
 */
module ImguiWindow {
  import opened Common
  import opened Style
  import opened HitTest
  import opened PositionTree
  import opened Resize
  import opened ChildList
  import opened ImguiObject

  /** The number of elements, and the index of each, back to front. */
  const ElementCount: nat := 5
  const BackgroundIndex: nat := 0
  const ContentIndex: nat := 1
  const CloseIndex: nat := 2
  const MaximizeIndex: nat := 3
  const MinimizeIndex: nat := 4

  /** The window's frame: its top-left corner and the size of its background. */
  datatype Frame = Frame(pos: Vec2, width: real, height: real)

  /**
   * The drag state: whether the title band is held, which edges (top,
   * right, bottom, left) are held, and the gap between the cursor and the
   * part of the frame it holds.
   */
  datatype Grip = Grip(moving: bool, sizing: seq<bool>, gap: Vec2)

  /** Nothing is held. */
  predicate AtRest(gr: Grip)
  {
    !gr.moving && gr.sizing == [false, false, false, false]
  }

  /** The part of the element views that moving and resizing leave alone: looks and callbacks. */
  function Faces(vs: seq<ChildView>): (r: seq<(Look, Events)>)
    ensures |r| == |vs| && forall i :: 0 <= i < |vs| ==> r[i] == (vs[i].look, vs[i].events)
  {
    seq(|vs|, i requires 0 <= i < |vs| => (vs[i].look, vs[i].events))
  }

  /** A hover change acts on looks and callbacks alone. */
  lemma FacesOfHover(vs: seq<ChildView>, ws: seq<ChildView>, f: Fired)
    requires |vs| == |ws| && Faces(vs) == Faces(ws)
    requires f.entered.Some? ==> f.entered.value < |vs|
    requires f.left.Some? ==> f.left.value < |vs|
    requires f.entered.Some? && f.left.Some? ==> f.entered != f.left
    ensures Faces(HoverViews(vs, f)) == Faces(HoverViews(ws, f))
  {
    forall i | 0 <= i < |vs|
      ensures Faces(HoverViews(vs, f))[i] == Faces(HoverViews(ws, f))[i]
    {
      assert Faces(vs)[i] == Faces(ws)[i];
    }
  }

  /** The title band of frame `f` with border `b` and title ratio `br` (12_imgui/src/ui/window.rs:270). */
  predicate InTitle(f: Frame, c: Vec2, b: real, br: real)
  {
    f.pos.x + b <= c.x < f.pos.x + f.width - b && f.pos.y + b <= c.y < f.pos.y + b * br
  }

  /** The band of width `b` along edge `e` (top, right, bottom, left) of frame `f` (12_imgui/src/ui/window.rs:274-289). */
  predicate OnEdge(f: Frame, c: Vec2, b: real, e: nat)
  {
    match e
    case 0 => f.pos.y <= c.y < f.pos.y + b
    case 1 => f.pos.x + f.width - b <= c.x < f.pos.x + f.width
    case 2 => f.pos.y + f.height - b <= c.y < f.pos.y + f.height
    case _ => f.pos.x <= c.x < f.pos.x + b
  }

  /**
   * The arming half of `mouse_down` (12_imgui/src/ui/window.rs:270-289) on
   * grip `gr`, frame `f` and cursor `c`: the title band arms moving and
   * records the gap to the frame's corner; each edge band arms its edge and
   * records the gap to that edge on its axis, later bands overriding the
   * gap of earlier ones.
   */
  function Armed(gr: Grip, f: Frame, c: Vec2, b: real, br: real): (r: Grip)
    requires |gr.sizing| == 4
    ensures |r.sizing| == 4
  {
    var g0 := if InTitle(f, c, b, br) then gr.(moving := true, gap := c.Minus(f.pos)) else gr;
    var g1 := if OnEdge(f, c, b, 0) then g0.(sizing := g0.sizing[0 := true], gap := g0.gap.(y := c.y - f.pos.y)) else g0;
    var g2 := if OnEdge(f, c, b, 1) then g1.(sizing := g1.sizing[1 := true], gap := g1.gap.(x := f.pos.x + f.width - c.x)) else g1;
    var g3 := if OnEdge(f, c, b, 2) then g2.(sizing := g2.sizing[2 := true], gap := g2.gap.(y := f.pos.y + f.height - c.y)) else g2;
    if OnEdge(f, c, b, 3) then g3.(sizing := g3.sizing[3 := true], gap := g3.gap.(x := c.x - f.pos.x)) else g3
  }

  /**
   * What a press records: moving is armed by the title band and each edge
   * by its own band, on top of what was already held; across, the gap is
   * the one of the left edge if held now, else of the right edge, else of
   * the title band, else the old one, and down likewise with the bottom
   * and top edges.
   */
  lemma ArmedSpec(gr: Grip, f: Frame, c: Vec2, b: real, br: real)
    requires |gr.sizing| == 4
    ensures var r := Armed(gr, f, c, b, br);
      && r.moving == (gr.moving || InTitle(f, c, b, br))
      && (forall e :: 0 <= e < 4 ==> r.sizing[e] == (gr.sizing[e] || OnEdge(f, c, b, e)))
      && r.gap.x == (if OnEdge(f, c, b, 3) then c.x - f.pos.x
        else if OnEdge(f, c, b, 1) then f.pos.x + f.width - c.x
        else if InTitle(f, c, b, br) then c.x - f.pos.x
        else gr.gap.x)
      && r.gap.y == (if OnEdge(f, c, b, 2) then f.pos.y + f.height - c.y
        else if OnEdge(f, c, b, 0) then c.y - f.pos.y
        else if InTitle(f, c, b, br) then c.y - f.pos.y
        else gr.gap.y)
  {
  }

  /** The top-edge step of a cursor event: the top follows the cursor, the bottom of the frame `th` tall stays. */
  function TopDragged(f: Frame, th: real, c: Vec2, g: Vec2, minH: real): (r: Frame)
    ensures r.pos.y + r.height == f.pos.y + th && r.height >= minH
    ensures r.pos.x == f.pos.x && r.width == f.width
  {
    var s := DragStart(Span(f.pos.y, th), c.y, g.y, minH);
    Frame(f.pos.(y := s.start), f.width, s.extent)
  }

  /** The left-edge step: the left follows the cursor, the right of the frame `tw` wide stays. */
  function LeftDragged(f: Frame, tw: real, c: Vec2, g: Vec2, minW: real): (r: Frame)
    ensures r.pos.x + r.width == f.pos.x + tw && r.width >= minW
    ensures r.pos.y == f.pos.y && r.height == f.height
  {
    var s := DragStart(Span(f.pos.x, tw), c.x, g.x, minW);
    Frame(f.pos.(x := s.start), s.extent, f.height)
  }

  /**
   * The frame after the moving and resizing part of `on_cursor_pos_event`
   * (12_imgui/src/ui/window.rs:190-226) with the cursor at `c`: a held title
   * puts the corner at the cursor minus the gap; then the top, right, bottom
   * and left edges, when held, follow the cursor in that order, the top and
   * left ones against the frame's size when the event began, and none of
   * them below the minimum width `minW` or height `minH`.
   */
  function Dragged(f: Frame, c: Vec2, gr: Grip, minW: real, minH: real): Frame
    requires |gr.sizing| == 4
  {
    EdgesDragged(if gr.moving then f.(pos := c.Minus(gr.gap)) else f, f.width, f.height, c, gr, minW, minH)
  }

  /**
   * The edge steps of a drag, from the frame `f` the title band left: the
   * top, right, bottom and left edges in that order, the top and left ones
   * against the width `tw` and height `th` the frame had when the event
   * began.
   */
  function EdgesDragged(f: Frame, tw: real, th: real, c: Vec2, gr: Grip, minW: real, minH: real): Frame
    requires |gr.sizing| == 4
  {
    var f1 := if gr.sizing[0] then TopDragged(f, th, c, gr.gap, minH) else f;
    var f3 := EndsDragged(f1, c, gr, minW, minH);
    if gr.sizing[3] then LeftDragged(f3, tw, c, gr.gap, minW) else f3
  }

  /** The edge steps of a drag taken one after the other: the top one, then the others. */
  lemma EdgesInSteps(f0: Frame, f1: Frame, f2: Frame, tw: real, th: real, c: Vec2, gr: Grip, minW: real, minH: real)
    requires |gr.sizing| == 4
    requires f1 == if gr.sizing[0] then TopDragged(f0, th, c, gr.gap, minH) else f0
    requires f2 == var f3 := EndsDragged(f1, c, gr, minW, minH); if gr.sizing[3] then LeftDragged(f3, tw, c, gr.gap, minW) else f3
    ensures f2 == EdgesDragged(f0, tw, th, c, gr, minW, minH)
  {
  }

  /** The right and bottom edges of a drag, when held, reach to the cursor plus the gap but not below the minimum; the corner stays. */
  function EndsDragged(f: Frame, c: Vec2, gr: Grip, minW: real, minH: real): (r: Frame)
    requires |gr.sizing| == 4
    ensures r.pos == f.pos
    ensures r.width == if gr.sizing[1] then DragEnd(f.pos.x, c.x, gr.gap.x, minW) else f.width
    ensures r.height == if gr.sizing[2] then DragEnd(f.pos.y, c.y, gr.gap.y, minH) else f.height
  {
    var f2 := if gr.sizing[1] then f.(width := DragEnd(f.pos.x, c.x, gr.gap.x, minW)) else f;
    if gr.sizing[2] then f2.(height := DragEnd(f2.pos.y, c.y, gr.gap.y, minH)) else f2
  }

  /**
   * What a drag does to the frame: a resized extent is never below its
   * minimum and an extent no edge holds is kept; a held title band puts the
   * corner at the cursor minus the gap on each axis no edge holds; without
   * it, a held top edge alone keeps the bottom, a held left edge keeps the
   * right, and a side no edge holds stays where it was.
   */
  lemma DraggedSpec(f: Frame, c: Vec2, gr: Grip, minW: real, minH: real)
    requires |gr.sizing| == 4
    ensures var r := Dragged(f, c, gr, minW, minH);
      && (gr.sizing[1] || gr.sizing[3] ==> r.width >= minW)
      && (gr.sizing[0] || gr.sizing[2] ==> r.height >= minH)
      && (!gr.sizing[1] && !gr.sizing[3] ==> r.width == f.width)
      && (!gr.sizing[0] && !gr.sizing[2] ==> r.height == f.height)
      && (gr.moving && !gr.sizing[0] && !gr.sizing[2] ==> r.pos.y == c.y - gr.gap.y)
      && (gr.moving && !gr.sizing[1] && !gr.sizing[3] ==> r.pos.x == c.x - gr.gap.x)
      && (!gr.moving && gr.sizing[0] && !gr.sizing[2] ==> r.pos.y + r.height == f.pos.y + f.height)
      && (!gr.moving && gr.sizing[3] ==> r.pos.x + r.width == f.pos.x + f.width)
      && (!gr.moving && !gr.sizing[0] ==> r.pos.y == f.pos.y)
      && (!gr.moving && !gr.sizing[3] ==> r.pos.x == f.pos.x)
  {
  }

  /**
   * Pressing on a frame larger than its minimum and then moving the cursor
   * nowhere leaves the frame where it was: whatever the press armed, every
   * recorded gap is exactly the one that puts the held part back under the
   * cursor. The bands cannot overlap for a non-negative border `b`, a title
   * ratio `br` of at least 1 and non-negative button width `bw`.
   */
  lemma {:induction false} GrabAndHoldIsStill(f: Frame, c: Vec2, gr: Grip, b: real, br: real, bw: real)
    requires AtRest(gr) && 0.0 <= b && 1.0 <= br && 0.0 <= bw
    requires f.width > b * 2.0 + bw * 4.0 && f.height > b * (br + 1.0)
    ensures Dragged(f, c, Armed(gr, f, c, b, br), b * 2.0 + bw * 4.0, b * (br + 1.0)) == f
  {
    var minW, minH := b * 2.0 + bw * 4.0, b * (br + 1.0);
    var a := Armed(gr, f, c, b, br);
    ArmedSpec(gr, f, c, b, br);
    BandsApart(f, c, b, br);
    var f0 := if a.moving then f.(pos := c.Minus(a.gap)) else f;
    assert f0 == f;
    var f1 := if a.sizing[0] then TopDragged(f0, f.height, c, a.gap, minH) else f0;
    if a.sizing[0] {
      DragStartAtGrab(Span(f.pos.y, f.height), c.y, minH);
    }
    assert f1 == f;
    var f2 := if a.sizing[1] then f1.(width := DragEnd(f1.pos.x, c.x, a.gap.x, minW)) else f1;
    if a.sizing[1] {
      DragEndAtGrab(Span(f.pos.x, f.width), c.x, minW);
    }
    assert f2 == f;
    var f3 := if a.sizing[2] then f2.(height := DragEnd(f2.pos.y, c.y, a.gap.y, minH)) else f2;
    if a.sizing[2] {
      DragEndAtGrab(Span(f.pos.y, f.height), c.y, minH);
    }
    assert f3 == f;
    if a.sizing[3] {
      DragStartAtGrab(Span(f.pos.x, f.width), c.x, minW);
    }
  }

  /**
   * On a frame taller than the border plus the title band, the top and
   * bottom bands are apart, so are the left and right ones on a frame wider
   * than two borders, and the title band touches none of them.
   */
  lemma BandsApart(f: Frame, c: Vec2, b: real, br: real)
    requires 0.0 <= b && 1.0 <= br
    requires f.width > b * 2.0 && f.height > b * (br + 1.0)
    ensures !(OnEdge(f, c, b, 0) && OnEdge(f, c, b, 2))
    ensures !(OnEdge(f, c, b, 1) && OnEdge(f, c, b, 3))
    ensures InTitle(f, c, b, br) ==> forall e :: 0 <= e < 4 ==> !OnEdge(f, c, b, e)
  {
    var t := b * br;
    assert b * (br + 1.0) == t + b;
    assert t >= b by {
      NonNegativeProduct(b, br - 1.0);
      assert b * (br - 1.0) == t - b;
    }
  }

  /** The product of two reals that are not negative is not negative. */
  lemma NonNegativeProduct(p: real, q: real)
    requires 0.0 <= p && 0.0 <= q
    ensures 0.0 <= p * q
  {
  }

  /** Whether any edge of grip `gr` is held. */
  predicate Resizing(gr: Grip)
    requires |gr.sizing| == 4
  {
    gr.sizing[0] || gr.sizing[1] || gr.sizing[2] || gr.sizing[3]
  }

  /**
   * Where the close, maximize and minimize buttons start across a
   * background `w` wide with border `b` and button width `bw`: right to
   * left from the border, the close button two buttons wide
   * (12_imgui/src/ui/window.rs:83, 96, 109).
   */
  function ButtonSlots(w: real, b: real, bw: real): (real, real, real)
  {
    (w - b - bw * 2.0, w - b - bw * 3.0, w - b - bw * 4.0)
  }

  class Window {
    const id: nat
    const name: string
    var contentWidth: real
    var contentHeight: real
    const contentBorderSize: real
    const borderSize: real
    const borderRatio: real
    var backgroundWidth: real
    var backgroundHeight: real
    var pos: Vec2
    const buttonWidth: real
    /** Background, content box, close, maximize and minimize buttons, back to front. */
    const elements: seq<Object>
    var onCursorElement: Option<nat>
    var prevOnCursorElement: Option<nat>
    var ratio: Vec2
    var moving: bool
    var sizing: seq<bool>
    var closed: bool
    var cursorPos: Vec2
    var prevCursorPos: Vec2
    var frameCursorGap: Vec2

    ghost var Repr: set<object>

    /** The window owns its five elements as valid, disjoint subtrees, and its hover indices name elements. */
    ghost predicate Owned()
      reads this`Repr, this`sizing, this`onCursorElement, this`prevOnCursorElement, ElementsRepr()
    {
      && this in Repr
      && |elements| == ElementCount && |sizing| == 4
      && (onCursorElement.Some? ==> onCursorElement.value < ElementCount)
      && (prevOnCursorElement.Some? ==> prevOnCursorElement.value < ElementCount)
      && Object.Subtrees(elements, ElementsRepr())
    }

    /** The part of the footprint that belongs to the elements. */
    ghost function ElementsRepr(): set<object>
      reads this`Repr
    {
      Repr - {this}
    }

    /**
     * The sizes agree: the background is the content plus the border on
     * each side and the title band, the background element has the
     * background's size and the content element the content's plus its own
     * border, and every element is placed at the window's corner.
     */
    ghost predicate Laid()
      reads this`backgroundWidth, this`backgroundHeight, this`contentWidth, this`contentHeight, this`pos, elements
    {
      && |elements| == ElementCount
      && backgroundWidth == contentWidth + borderSize * 2.0
      && backgroundHeight == contentHeight + borderSize * (borderRatio + 1.0)
      && elements[BackgroundIndex].width == backgroundWidth && elements[BackgroundIndex].height == backgroundHeight
      && elements[ContentIndex].width == contentWidth + contentBorderSize * 2.0
      && elements[ContentIndex].height == contentHeight + contentBorderSize * 2.0
      && forall i :: 0 <= i < ElementCount ==> elements[i].basePos == pos
    }

    ghost predicate Valid()
      reads this`Repr, this`sizing, this`onCursorElement, this`prevOnCursorElement, ElementsRepr()
      reads this`backgroundWidth, this`backgroundHeight, this`contentWidth, this`contentHeight, this`pos, elements
    {
      Owned() && Laid()
    }

    /** What the window sees of its elements. */
    ghost function Views(): seq<ChildView>
      requires Object.Subtrees(elements, ElementsRepr())
      reads this`Repr, ElementsRepr()
    {
      Object.Views(elements, ElementsRepr())
    }

    /** The positions of the elements' subtrees. */
    ghost function Snapshots(): seq<PosTree>
      requires Object.Subtrees(elements, ElementsRepr())
      reads this`Repr, ElementsRepr()
    {
      Object.Snapshots(elements, ElementsRepr())
    }

    /** Everything of the elements' subtrees but positions, ratios and buffers. */
    ghost function Shapes(): seq<ShapeTree>
      requires Object.Subtrees(elements, ElementsRepr())
      reads this`Repr, ElementsRepr()
    {
      Object.ShapesIn(elements, ElementsRepr())
    }

    /** What hover and button events leave of the elements' subtrees (`Object.Form`). */
    ghost function Forms(): seq<ShapeTree>
      requires Object.Subtrees(elements, ElementsRepr())
      reads this`Repr, ElementsRepr()
    {
      Object.FormsIn(elements, ElementsRepr())
    }

    /** The sizes `Laid` asks of the background and content elements for the window's current extents. */
    ghost function Extents(): ((real, real), (real, real))
      reads this`backgroundWidth, this`backgroundHeight, this`contentWidth, this`contentHeight
    {
      ((backgroundWidth, backgroundHeight), (contentWidth + contentBorderSize * 2.0, contentHeight + contentBorderSize * 2.0))
    }

    /** Shapes `ss` with the background and content elements at the sizes `Laid` asks for the window's current extents. */
    ghost function Fit(ss: seq<ShapeTree>): seq<ShapeTree>
      requires |ss| == ElementCount
      reads this`backgroundWidth, this`backgroundHeight, this`contentWidth, this`contentHeight
    {
      Fitted(ss, Extents().0, Extents().1)
    }

    /** The window's frame as the drag functions see it. */
    function Outline(): Frame
      reads this`pos, this`backgroundWidth, this`backgroundHeight
    {
      Frame(pos, backgroundWidth, backgroundHeight)
    }

    /** The window's drag state. */
    function Hold(): Grip
      reads this`moving, this`sizing, this`frameCursorGap
    {
      Grip(moving, sizing, frameCursorGap)
    }

    /** The smallest background width a resize leaves: the borders and four buttons. */
    function MinWidth(): real
    {
      borderSize * 2.0 + buttonWidth * 4.0
    }

    /** The smallest background height a resize leaves: the border and the title band. */
    function MinHeight(): real
    {
      borderSize * (borderRatio + 1.0)
    }

    /** Where the close, maximize and minimize buttons start across the title band. */
    ghost function Anchors(): (real, real, real)
      requires |elements| == ElementCount
      reads elements
    {
      (elements[CloseIndex].localPos.x, elements[MaximizeIndex].localPos.x, elements[MinimizeIndex].localPos.x)
    }

    /** The buttons sit at the right end of the title band (12_imgui/src/ui/window.rs:227-231). */
    ghost predicate ButtonsAnchored()
      reads this`backgroundWidth, elements
    {
      |elements| == ElementCount && Anchors() == ButtonSlots(backgroundWidth, borderSize, buttonWidth)
    }

    /** Element `i` is a valid subtree in the elements' part of the footprint. */
    lemma ElementValid(i: nat)
      requires Owned() && i < ElementCount
      ensures elements[i] in ElementsRepr() && elements[i].Repr <= ElementsRepr() && elements[i].Valid()
    {
    }

    /**
     * Element `i` changed only inside its own footprint, stayed valid and
     * kept its size and place, while the window's own fields stayed: the
     * window is still valid, the buttons are where they were, and only the
     * element's view and positions may differ.
     */
    twostate lemma ElementChanged(i: nat)
      requires old(Valid()) && i < ElementCount && unchanged(this)
      requires elements[i].Valid() && elements[i].Repr == old(elements[i].Repr)
      requires forall o: object :: o in ElementsRepr() && o !in old(elements[i].Repr) ==> unchanged(o)
      requires (elements[i].width, elements[i].height, elements[i].localPos, elements[i].basePos) == old((elements[i].width, elements[i].height, elements[i].localPos, elements[i].basePos))
      ensures Valid() && Anchors() == old(Anchors())
      ensures Views() == old(Views())[i := elements[i].View()]
      ensures forall j :: 0 <= j < ElementCount && j != i ==> unchanged(elements[j])
    {
      ElementMoved(i);
    }

    /** As `ElementChanged`, for a change that may also move element `i` against the corner. */
    twostate lemma ElementMoved(i: nat)
      requires old(Valid()) && i < ElementCount && unchanged(this)
      requires elements[i].Valid() && elements[i].Repr == old(elements[i].Repr)
      requires forall o: object :: o in ElementsRepr() && o !in old(elements[i].Repr) ==> unchanged(o)
      requires (elements[i].width, elements[i].height, elements[i].basePos) == old((elements[i].width, elements[i].height, elements[i].basePos))
      ensures Valid()
      ensures Views() == old(Views())[i := elements[i].View()]
      ensures forall j :: 0 <= j < ElementCount && j != i ==> unchanged(elements[j])
    {
      Object.OneChildKept(Sibling(Siblings(elements, ElementsRepr()), i));
      assert Owned();
      assert Laid() by {
        assert elements[0].width == old(elements[0].width) && elements[0].height == old(elements[0].height);
        assert elements[1].width == old(elements[1].width) && elements[1].height == old(elements[1].height);
      }
    }

    /** Under the same conditions, whether the other elements are all at the window's ratio does not change. */
    twostate lemma OthersStillAt(i: nat)
      requires old(Valid()) && i < ElementCount && unchanged(this)
      requires elements[i].Valid() && elements[i].Repr == old(elements[i].Repr)
      requires forall o: object :: o in ElementsRepr() && o !in old(elements[i].Repr) ==> unchanged(o)
      ensures forall j :: 0 <= j < ElementCount && j != i ==> elements[j].Valid() && (elements[j].AllAt(ratio) <==> old(elements[j].AllAt(ratio)))
    {
      forall j | 0 <= j < ElementCount && j != i
        ensures elements[j].Valid() && (elements[j].AllAt(ratio) <==> old(elements[j].AllAt(ratio)))
      {
        assert old(elements[j].Repr !! elements[i].Repr) by {
          if j < i { } else { }
        }
        assert old(elements[j].Valid());
      }
    }

    /** Under the same conditions, when element `i` keeps its position snapshot, so do all of them. */
    twostate lemma ElementSnapshotKept(i: nat)
      requires old(Valid()) && i < ElementCount && unchanged(this)
      requires elements[i].Valid() && elements[i].Repr == old(elements[i].Repr)
      requires forall o: object :: o in ElementsRepr() && o !in old(elements[i].Repr) ==> unchanged(o)
      requires elements[i].Snapshot() == old(elements[i].Snapshot())
      ensures Object.Subtrees(elements, ElementsRepr())
      ensures Snapshots() == old(Snapshots())
    {
      Object.OneChildChanged(Sibling(Siblings(elements, ElementsRepr()), i));
    }

    /** Under the same conditions, when element `i` keeps its positions and its look-masked shape, so do all of them. */
    twostate lemma ElementTreesKept(i: nat)
      requires old(Valid()) && i < ElementCount && unchanged(this)
      requires elements[i].Valid() && elements[i].Repr == old(elements[i].Repr)
      requires forall o: object :: o in ElementsRepr() && o !in old(elements[i].Repr) ==> unchanged(o)
      requires elements[i].Snapshot() == old(elements[i].Snapshot()) && elements[i].Form() == old(elements[i].Form())
      ensures Object.Subtrees(elements, ElementsRepr())
      ensures Snapshots() == old(Snapshots()) && Forms() == old(Forms())
    {
      Object.OneChildChanged(Sibling(Siblings(elements, ElementsRepr()), i));
      Object.FormsChanged(Sibling(Siblings(elements, ElementsRepr()), i));
    }

    /** Under the same conditions, only element `i`'s positions and look-masked shape may differ. */
    twostate lemma ElementTreesChanged(i: nat)
      requires old(Valid()) && i < ElementCount && unchanged(this)
      requires elements[i].Valid() && elements[i].Repr == old(elements[i].Repr)
      requires forall o: object :: o in ElementsRepr() && o !in old(elements[i].Repr) ==> unchanged(o)
      ensures Object.Subtrees(elements, ElementsRepr())
      ensures Snapshots() == old(Snapshots())[i := elements[i].Snapshot()]
      ensures Forms() == old(Forms())[i := elements[i].Form()]
    {
      Object.OneChildChanged(Sibling(Siblings(elements, ElementsRepr()), i));
      Object.FormsChanged(Sibling(Siblings(elements, ElementsRepr()), i));
    }

    /** Under the same conditions, only element `i`'s shape may differ. */
    twostate lemma ElementShapeChanged(i: nat)
      requires old(Owned()) && Owned() && i < ElementCount && ElementsRepr() == old(ElementsRepr())
      requires elements[i].Repr == old(elements[i].Repr)
      requires forall o: object :: o in ElementsRepr() && o !in old(elements[i].Repr) ==> unchanged(o)
      ensures Shapes() == old(Shapes())[i := elements[i].Shape()]
    {
      Object.ShapesChanged(Sibling(Siblings(elements, ElementsRepr()), i));
    }

    /** The shapes carry the elements' sizes. */
    lemma ShapeSizes()
      requires Owned()
      ensures |Shapes()| == ElementCount
      ensures forall i :: 0 <= i < ElementCount ==> Shapes()[i].size == (elements[i].width, elements[i].height)
    {
      forall i | 0 <= i < ElementCount
        ensures Shapes()[i].size == (elements[i].width, elements[i].height)
      {
        assert Shapes()[i] == elements[i].Shape();
      }
    }

    /** A laid-out window's shapes are already fitted to its extents. */
    lemma FitLaid()
      requires Valid()
      ensures |Shapes()| == ElementCount && Fit(Shapes()) == Shapes()
    {
      ShapeSizes();
    }

    /**
     * `set_pos` (12_imgui/src/ui/window.rs:126-137): the corner takes the
     * given coordinates, and the same optional coordinates go to every
     * element as its base, so the elements move with the window. Sizes,
     * looks and the buttons' offsets stay.
     */
    method SetPos(x: Option<real>, y: Option<real>)
      requires Valid()
      modifies this`pos, ElementsRepr()
      ensures Valid()
      ensures pos == Vec2(Pick(x, old(pos).x), Pick(y, old(pos).y))
      ensures Snapshots() == SetBaseEach(old(Snapshots()), x, y) && Shapes() == old(Shapes())
      ensures Faces(Views()) == old(Faces(Views())) && Anchors() == old(Anchors())
    {
      StorePos(Vec2(Pick(x, pos.x), Pick(y, pos.y)));
      RebaseElements(x, y);
    }

    /** The store that opens `set_pos`: the corner moves, and nothing the elements hold changes yet. */
    method StorePos(p: Vec2)
      requires Owned()
      modifies this`pos
      ensures Owned() && pos == p
      ensures Snapshots() == old(Snapshots()) && Shapes() == old(Shapes()) && Views() == old(Views())
    {
      ghost var t0, a0, v0 := Snapshots(), Shapes(), Views();
      pos := p;
      assert Snapshots() == t0 && Shapes() == a0 && Views() == v0;
    }

    /** The loop of `set_pos`: each element is rebased on the given axes. */
    method RebaseElements(x: Option<real>, y: Option<real>)
      requires Owned()
      modifies ElementsRepr()
      ensures Owned()
      ensures Snapshots() == SetBaseEach(old(Snapshots()), x, y) && Shapes() == old(Shapes())
      ensures Faces(Views()) == old(Faces(Views()))
      ensures forall j :: 0 <= j < ElementCount ==> elements[j].basePos == Vec2(Pick(x, old(elements[j].basePos).x), Pick(y, old(elements[j].basePos).y))
      ensures forall j :: 0 <= j < ElementCount ==> elements[j].width == old(elements[j].width) && elements[j].height == old(elements[j].height) && elements[j].localPos == old(elements[j].localPos)
    {
      ghost var before := Snapshots();
      ghost var faces := Faces(Views());
      var i := 0;
      while i < ElementCount
        invariant 0 <= i <= ElementCount
        invariant Owned()
        invariant forall j :: 0 <= j < ElementCount ==> Snapshots()[j] == if j < i then SetBase(before[j], x, y) else before[j]
        invariant Faces(Views()) == faces && Shapes() == old(Shapes())
        invariant forall j :: 0 <= j < ElementCount ==>
            (elements[j].width, elements[j].height, elements[j].localPos, elements[j].basePos) == (old(elements[j].width), old(elements[j].height), old(elements[j].localPos), if j < i then Vec2(Pick(x, old(elements[j].basePos).x), Pick(y, old(elements[j].basePos).y)) else old(elements[j].basePos))
      {
        RebaseElement(i, x, y);
        i := i + 1;
      }
    }

    /** One step of that loop: element `i` runs `set_base_pos`. */
    method RebaseElement(i: nat, x: Option<real>, y: Option<real>)
      requires Owned() && i < ElementCount
      modifies elements[i].Repr
      ensures Owned()
      ensures Snapshots() == old(Snapshots())[i := SetBase(old(Snapshots())[i], x, y)] && Shapes() == old(Shapes())
      ensures Faces(Views()) == old(Faces(Views()))
      ensures elements[i].basePos == Vec2(Pick(x, old(elements[i].basePos).x), Pick(y, old(elements[i].basePos).y))
      ensures (elements[i].width, elements[i].height, elements[i].localPos) == old((elements[i].width, elements[i].height, elements[i].localPos))
      ensures forall j :: 0 <= j < ElementCount && j != i ==> unchanged(elements[j])
      ensures unchanged(this)
    {
      ElementValid(i);
      elements[i].SetBasePos(x, y);
      Object.OneChildChanged(Sibling(Siblings(elements, ElementsRepr()), i));
      ElementShapeChanged(i);
      assert Faces(Views())[i] == old(Faces(Views()))[i];
    }

    /**
     * `set_content_size` (12_imgui/src/ui/window.rs:139-153): on each axis
     * given, the content takes the new extent and the background follows
     * it, with a border on either side across and the border and the title
     * band down; both elements are resized to match.
     */
    method SetContentSize(w: Option<real>, h: Option<real>)
      requires Valid()
      modifies this`contentWidth, this`contentHeight, this`backgroundWidth, this`backgroundHeight, elements[BackgroundIndex].Repr, elements[ContentIndex].Repr
      ensures Valid()
      ensures contentWidth == Pick(w, old(contentWidth)) && contentHeight == Pick(h, old(contentHeight))
      ensures Faces(Views()) == old(Faces(Views())) && Anchors() == old(Anchors())
      ensures Snapshots() == old(Snapshots()) && Shapes() == Fit(old(Shapes()))
    {
      var bw := if w.Some? then Some(w.value + borderSize * 2.0) else None;
      var bh := if h.Some? then Some(h.value + borderSize * (borderRatio + 1.0)) else None;
      SetBackgroundSize(bw, bh);
    }

    /**
     * `set_background_size` (12_imgui/src/ui/window.rs:155-169): on each
     * axis given, the background takes the new extent and the content
     * follows it inside the borders and the title band; both elements are
     * resized to match, and nothing else below the window changes.
     */
    method SetBackgroundSize(w: Option<real>, h: Option<real>)
      requires Valid()
      modifies this`contentWidth, this`contentHeight, this`backgroundWidth, this`backgroundHeight, elements[BackgroundIndex].Repr, elements[ContentIndex].Repr
      ensures Valid()
      ensures backgroundWidth == Pick(w, old(backgroundWidth)) && backgroundHeight == Pick(h, old(backgroundHeight))
      ensures Faces(Views()) == old(Faces(Views())) && Anchors() == old(Anchors())
      ensures Snapshots() == old(Snapshots()) && Shapes() == Fit(old(Shapes()))
    {
      FitWidth(w);
      ghost var e1 := Extents();
      FitHeight(h);
      FittedTwice(old(Shapes()), e1.0, e1.1, Extents().0, Extents().1);
    }

    /** The width half of both size setters: when `bg` is given, the background becomes that wide and the content and both elements follow. */
    method FitWidth(bg: Option<real>)
      requires Valid()
      modifies this`contentWidth, this`backgroundWidth, elements[BackgroundIndex].Repr, elements[ContentIndex].Repr
      ensures Valid() && backgroundWidth == Pick(bg, old(backgroundWidth))
      ensures Faces(Views()) == old(Faces(Views())) && Anchors() == old(Anchors())
      ensures elements[BackgroundIndex].Repr == old(elements[BackgroundIndex].Repr) && elements[ContentIndex].Repr == old(elements[ContentIndex].Repr)
      ensures Snapshots() == old(Snapshots()) && Shapes() == Fit(old(Shapes()))
    {
      if bg.Some? {
        StretchWidth(bg.value);
      } else {
        FitLaid();
      }
    }

    /** The given branch of `FitWidth`: the background becomes `bg` wide and the content and both elements follow. */
    method StretchWidth(bg: real)
      requires Valid()
      modifies this`contentWidth, this`backgroundWidth, elements[BackgroundIndex].Repr, elements[ContentIndex].Repr
      ensures Valid() && backgroundWidth == bg
      ensures Faces(Views()) == old(Faces(Views())) && Anchors() == old(Anchors())
      ensures elements[BackgroundIndex].Repr == old(elements[BackgroundIndex].Repr) && elements[ContentIndex].Repr == old(elements[ContentIndex].Repr)
      ensures Snapshots() == old(Snapshots()) && Shapes() == Fit(old(Shapes()))
    {
      StoreWidths(bg, bg - borderSize * 2.0);
      ResizeFrame(Some(backgroundWidth), None, Some(contentWidth + contentBorderSize * 2.0), None);
      assert elements[BackgroundIndex].height == old(elements[BackgroundIndex].height) && elements[ContentIndex].height == old(elements[ContentIndex].height);
      assert (elements[BackgroundIndex].width, elements[BackgroundIndex].height) == (backgroundWidth, backgroundHeight);
      assert (elements[ContentIndex].width, elements[ContentIndex].height) == (contentWidth + contentBorderSize * 2.0, contentHeight + contentBorderSize * 2.0);
    }

    /** The height half of both size setters: when `bg` is given, the background becomes that tall and the content and both elements follow. */
    method FitHeight(bg: Option<real>)
      requires Valid()
      modifies this`contentHeight, this`backgroundHeight, elements[BackgroundIndex].Repr, elements[ContentIndex].Repr
      ensures Valid() && backgroundHeight == Pick(bg, old(backgroundHeight))
      ensures backgroundWidth == old(backgroundWidth) && contentWidth == old(contentWidth)
      ensures Faces(Views()) == old(Faces(Views())) && Anchors() == old(Anchors())
      ensures elements[BackgroundIndex].Repr == old(elements[BackgroundIndex].Repr) && elements[ContentIndex].Repr == old(elements[ContentIndex].Repr)
      ensures Snapshots() == old(Snapshots()) && Shapes() == Fit(old(Shapes()))
    {
      if bg.Some? {
        StretchHeight(bg.value);
      } else {
        FitLaid();
      }
    }

    /** The given branch of `FitHeight`: the background becomes `bg` tall and the content and both elements follow. */
    method StretchHeight(bg: real)
      requires Valid()
      modifies this`contentHeight, this`backgroundHeight, elements[BackgroundIndex].Repr, elements[ContentIndex].Repr
      ensures Valid() && backgroundHeight == bg
      ensures Faces(Views()) == old(Faces(Views())) && Anchors() == old(Anchors())
      ensures elements[BackgroundIndex].Repr == old(elements[BackgroundIndex].Repr) && elements[ContentIndex].Repr == old(elements[ContentIndex].Repr)
      ensures Snapshots() == old(Snapshots()) && Shapes() == Fit(old(Shapes()))
    {
      StoreHeights(bg, bg - borderSize * (borderRatio + 1.0));
      ResizeFrame(None, Some(backgroundHeight), None, Some(contentHeight + contentBorderSize * 2.0));
      assert elements[BackgroundIndex].width == old(elements[BackgroundIndex].width) && elements[ContentIndex].width == old(elements[ContentIndex].width);
      assert (elements[BackgroundIndex].width, elements[BackgroundIndex].height) == (backgroundWidth, backgroundHeight);
      assert (elements[ContentIndex].width, elements[ContentIndex].height) == (contentWidth + contentBorderSize * 2.0, contentHeight + contentBorderSize * 2.0);
    }

    /** The background element runs `set_size(bw, bh)` and the content element `set_size(cw, ch)`: only those two extents change. */
    method ResizeFrame(bw: Option<real>, bh: Option<real>, cw: Option<real>, ch: Option<real>)
      requires Owned()
      modifies elements[BackgroundIndex].Repr, elements[ContentIndex].Repr
      ensures Owned()
      ensures elements[BackgroundIndex].Repr == old(elements[BackgroundIndex].Repr) && elements[ContentIndex].Repr == old(elements[ContentIndex].Repr)
      ensures elements[BackgroundIndex].width == Pick(bw, old(elements[BackgroundIndex].width)) && elements[BackgroundIndex].height == Pick(bh, old(elements[BackgroundIndex].height))
      ensures elements[ContentIndex].width == Pick(cw, old(elements[ContentIndex].width)) && elements[ContentIndex].height == Pick(ch, old(elements[ContentIndex].height))
      ensures forall j :: 0 <= j < ElementCount ==> elements[j].basePos == old(elements[j].basePos)
      ensures forall j :: 0 <= j < ElementCount && j != BackgroundIndex && j != ContentIndex ==> unchanged(elements[j])
      ensures Faces(Views()) == old(Faces(Views())) && Snapshots() == old(Snapshots()) && Anchors() == old(Anchors())
      ensures Shapes() == Fitted(old(Shapes()), (elements[BackgroundIndex].width, elements[BackgroundIndex].height), (elements[ContentIndex].width, elements[ContentIndex].height))
      ensures unchanged(this)
    {
      ResizeElement(BackgroundIndex, bw, bh);
      ResizeElement(ContentIndex, cw, ch);
    }

    /** The stores of the width half: the background and content widths, and nothing the elements hold. */
    method StoreWidths(bg: real, content: real)
      requires Owned()
      modifies this`backgroundWidth, this`contentWidth
      ensures Owned() && backgroundWidth == bg && contentWidth == content
      ensures Snapshots() == old(Snapshots()) && Views() == old(Views()) && Shapes() == old(Shapes())
    {
      ghost var t0, v0, a0 := Snapshots(), Views(), Shapes();
      backgroundWidth, contentWidth := bg, content;
      assert Snapshots() == t0 && Views() == v0 && Shapes() == a0;
    }

    /** The stores of the height half: the background and content heights, and nothing the elements hold. */
    method StoreHeights(bg: real, content: real)
      requires Owned()
      modifies this`backgroundHeight, this`contentHeight
      ensures Owned() && backgroundHeight == bg && contentHeight == content
      ensures Snapshots() == old(Snapshots()) && Views() == old(Views()) && Shapes() == old(Shapes())
    {
      ghost var t0, v0, a0 := Snapshots(), Views(), Shapes();
      backgroundHeight, contentHeight := bg, content;
      assert Snapshots() == t0 && Views() == v0 && Shapes() == a0;
    }

    /** Element `i` runs `set_size(w, h)`: only its extents change. */
    method ResizeElement(i: nat, w: Option<real>, h: Option<real>)
      requires Owned() && i < ElementCount
      modifies elements[i].Repr
      ensures Owned() && elements[i].Repr == old(elements[i].Repr)
      ensures elements[i].width == Pick(w, old(elements[i].width)) && elements[i].height == Pick(h, old(elements[i].height))
      ensures (elements[i].localPos, elements[i].basePos) == old((elements[i].localPos, elements[i].basePos))
      ensures Faces(Views()) == old(Faces(Views()))
      ensures forall j :: 0 <= j < ElementCount && j != i ==> unchanged(elements[j])
      ensures Snapshots() == old(Snapshots())
      ensures Shapes() == old(Shapes())[i := old(Shapes())[i].(size := (elements[i].width, elements[i].height))]
    {
      ElementValid(i);
      elements[i].SetSize(w, h);
      Object.OneChildChanged(Sibling(Siblings(elements, ElementsRepr()), i));
      ElementShapeChanged(i);
      assert Faces(Views())[i] == old(Faces(Views()))[i];
    }

    /** Element `i` runs `set_local_pos(Some(x), None)`: its offset across changes, and its size and base stay. */
    method RelocateElement(i: nat, x: real)
      requires Valid() && i < ElementCount
      modifies elements[i].Repr
      ensures Valid() && elements[i].Repr == old(elements[i].Repr)
      ensures elements[i].localPos.x == x
      ensures (elements[i].width, elements[i].height, elements[i].basePos) == old((elements[i].width, elements[i].height, elements[i].basePos))
      ensures Faces(Views()) == old(Faces(Views()))
      ensures forall j :: 0 <= j < ElementCount && j != i ==> unchanged(elements[j])
      ensures Snapshots() == old(Snapshots())[i := SetLocal(old(Snapshots())[i], Some(x), None)]
      ensures elements[i].Shape() == old(elements[i].Shape()) && Shapes() == old(Shapes())
      ensures unchanged(this)
    {
      ElementValid(i);
      ghost var t := elements[i].Snapshot();
      elements[i].SetLocalPos(Some(x), None);
      SetLocalSpec(t, Some(x), None);
      ElementMoved(i);
      Object.OneChildChanged(Sibling(Siblings(elements, ElementsRepr()), i));
      ElementShapeChanged(i);
      assert Faces(Views())[i] == old(Faces(Views()))[i];
    }

    /**
     * `reshape` (12_imgui/src/ui/window.rs:171-176): every element takes the
     * window's ratio and reshapes, so that every node below the window is
     * at that ratio; positions, sizes and looks stay.
     */
    method Reshape()
      requires Valid()
      modifies ElementsRepr()
      ensures Valid()
      ensures forall i :: 0 <= i < ElementCount ==> elements[i].AllAt(ratio)
      ensures Views() == old(Views()) && Snapshots() == old(Snapshots()) && Anchors() == old(Anchors())
      ensures Shapes() == old(Shapes())
    {
      for i := 0 to ElementCount
        invariant Valid()
        invariant forall j :: 0 <= j < i ==> elements[j].AllAt(ratio)
        invariant Views() == old(Views()) && Snapshots() == old(Snapshots()) && Anchors() == old(Anchors())
        invariant Shapes() == old(Shapes())
      {
        ReshapeElement(i);
      }
    }

    /** One step of that loop: element `i` takes the window's ratio and reshapes. */
    method ReshapeElement(i: nat)
      requires Valid() && i < ElementCount
      modifies elements[i].Repr
      ensures Valid()
      ensures Views() == old(Views()) && Snapshots() == old(Snapshots()) && Anchors() == old(Anchors())
      ensures Shapes() == old(Shapes())
      ensures elements[i].AllAt(ratio)
      ensures forall j :: 0 <= j < ElementCount && j != i ==> (elements[j].AllAt(ratio) <==> old(elements[j].AllAt(ratio)))
    {
      ElementValid(i);
      elements[i].Rescale(ratio);
      ElementRescaled(i);
    }

    /** After element `i` changed only below its own position, size, view, snapshot and shape, the window's projections are all kept. */
    twostate lemma ElementRescaled(i: nat)
      requires old(Valid()) && i < ElementCount && unchanged(this)
      requires elements[i].Valid() && elements[i].Repr == old(elements[i].Repr)
      requires forall o: object :: o in ElementsRepr() && o !in old(elements[i].Repr) ==> unchanged(o)
      requires (elements[i].width, elements[i].height, elements[i].localPos, elements[i].basePos) == old((elements[i].width, elements[i].height, elements[i].localPos, elements[i].basePos))
      requires elements[i].View() == old(elements[i].View()) && elements[i].Snapshot() == old(elements[i].Snapshot()) && elements[i].Shape() == old(elements[i].Shape())
      ensures Valid() && Anchors() == old(Anchors())
      ensures Views() == old(Views()) && Snapshots() == old(Snapshots()) && Shapes() == old(Shapes())
      ensures forall j :: 0 <= j < ElementCount && j != i ==> (elements[j].AllAt(ratio) <==> old(elements[j].AllAt(ratio)))
    {
      ElementKept(i);
      ElementShapeChanged(i);
      OthersStillAt(i);
    }

    /** After element `i` changed only below its own position, size, view and snapshot, the window keeps its views and snapshots. */
    twostate lemma ElementKept(i: nat)
      requires old(Valid()) && i < ElementCount && unchanged(this)
      requires elements[i].Valid() && elements[i].Repr == old(elements[i].Repr)
      requires forall o: object :: o in ElementsRepr() && o !in old(elements[i].Repr) ==> unchanged(o)
      requires (elements[i].width, elements[i].height, elements[i].localPos, elements[i].basePos) == old((elements[i].width, elements[i].height, elements[i].localPos, elements[i].basePos))
      requires elements[i].View() == old(elements[i].View()) && elements[i].Snapshot() == old(elements[i].Snapshot())
      ensures Valid() && Anchors() == old(Anchors())
      ensures Views() == old(Views()) && Snapshots() == old(Snapshots())
    {
      ElementChanged(i);
      ElementSnapshotKept(i);
    }

    /**
     * `render` (12_imgui/src/ui/window.rs:178-185), without the draw calls:
     * every element renders in turn, which drops the closed nodes below it;
     * the elements themselves keep their sizes, places and looks.
     */
    method Render()
      requires Valid()
      modifies ElementsRepr()
      ensures Valid()
      ensures forall i :: 0 <= i < ElementCount ==> elements[i].Swept()
      ensures forall i :: 0 <= i < ElementCount ==>
        elements[i].children == KeepOpen(old(elements[i].children), old(Object.ClosedOf(elements[i].children)))
      ensures Views() == old(Views()) && Anchors() == old(Anchors())
    {
      for i := 0 to ElementCount
        invariant Valid()
        invariant forall j :: 0 <= j < i ==> elements[j].Swept()
        invariant forall j :: 0 <= j < i ==>
          elements[j].children == KeepOpen(old(elements[j].children), old(Object.ClosedOf(elements[j].children)))
        invariant forall j :: i <= j < ElementCount ==>
          elements[j].children == old(elements[j].children) && Object.ClosedOf(elements[j].children) == old(Object.ClosedOf(elements[j].children))
        invariant Views() == old(Views()) && Anchors() == old(Anchors())
      {
        RenderElement(i);
      }
    }

    /**
     * One step of that loop: element `i` renders and drops its closed
     * children; the other elements keep their children and their flags.
     */
    method RenderElement(i: nat)
      requires Valid() && i < ElementCount
      modifies elements[i].Repr
      ensures Valid()
      ensures Views() == old(Views()) && Anchors() == old(Anchors())
      ensures elements[i].Swept()
      ensures elements[i].children == KeepOpen(old(elements[i].children), old(Object.ClosedOf(elements[i].children)))
      ensures forall j :: 0 <= j < ElementCount && j != i ==> (elements[j].Swept() <==> old(elements[j].Swept()))
      ensures forall j :: 0 <= j < ElementCount && j != i ==> elements[j].children == old(elements[j].children)
      ensures forall j :: 0 <= j < ElementCount && j != i ==> Object.ClosedOf(elements[j].children) == old(Object.ClosedOf(elements[j].children))
    {
      ElementValid(i);
      elements[i].Render();
      ElementChanged(i);
      forall j | 0 <= j < ElementCount && j != i
        ensures elements[j].Swept() <==> old(elements[j].Swept())
        ensures Object.ClosedOf(elements[j].children) == old(Object.ClosedOf(elements[j].children))
      {
        assert old(elements[j].Repr !! elements[i].Repr) by {
          if j < i { } else { }
        }
        ElementValid(j);
        assert forall k :: 0 <= k < |elements[j].children| ==> elements[j].children[k] in old(elements[j].Repr);
        assert forall k :: 0 <= k < |elements[j].children| ==> elements[j].children[k].closed == old(elements[j].children[k].closed);
      }
    }

    /**
     * `on_cursor_pos_event` (12_imgui/src/ui/window.rs:188-250): the cursor
     * is stored; a held title band or held edges drag the frame as `Dragged`
     * says, and after a resize the buttons are put back at the right end of
     * the title band; then the topmost element under the cursor gets the
     * event, and when it differs from the one hovered at the previous event
     * it is entered and that one left. The hovered element is recorded as
     * the previous one for the next event.
     */
    method OnCursorPosEvent(x: real, y: real)
      requires Valid()
      modifies this`cursorPos, this`prevCursorPos, this`onCursorElement, this`prevOnCursorElement
      modifies this`pos, this`backgroundWidth, this`backgroundHeight, this`contentWidth, this`contentHeight, ElementsRepr()
      ensures Valid()
      ensures cursorPos == Vec2(x, y) && prevCursorPos == cursorPos
      ensures Outline() == Dragged(old(Outline()), cursorPos, old(Hold()), MinWidth(), MinHeight())
      ensures Resizing(old(Hold())) ==> ButtonsAnchored()
      ensures !Resizing(old(Hold())) ==> Anchors() == old(Anchors())
      ensures Snapshots() == if Resizing(old(Hold())) then Anchored(Moved(old(Snapshots()), old(Hold()), pos), ButtonSlots(backgroundWidth, borderSize, buttonWidth)) else Moved(old(Snapshots()), old(Hold()), pos)
      ensures onCursorElement == Topmost(RectsOf(Views()), cursorPos, false) && prevOnCursorElement == onCursorElement
      ensures Faces(Views()) == Faces(HoverViews(old(Views()), HoverFires(old(prevOnCursorElement), onCursorElement)))
      ensures Forms() == Fit(old(Forms()))
    {
      ghost var s := Shapes();
      Object.FormsAreMasked(elements, ElementsRepr());
      FollowCursor(x, y, Hold());
      Object.FormsAreMasked(elements, ElementsRepr());
      MaskedFitted(s, Extents().0, Extents().1);
      HoverAfter(old(Views()));
    }

    /** `TrackHover` after a drag that kept the looks and callbacks of views `ws`: the hover change acts as it would have on `ws`. */
    method HoverAfter(ghost ws: seq<ChildView>)
      requires Valid() && |ws| == ElementCount && Faces(Views()) == Faces(ws)
      modifies this`prevCursorPos, this`onCursorElement, this`prevOnCursorElement, ElementsRepr()
      ensures Valid() && Anchors() == old(Anchors()) && Snapshots() == old(Snapshots()) && Forms() == old(Forms())
      ensures onCursorElement == Topmost(RectsOf(Views()), cursorPos, false)
      ensures prevOnCursorElement == onCursorElement && prevCursorPos == cursorPos
      ensures Faces(Views()) == Faces(HoverViews(ws, HoverFires(old(prevOnCursorElement), onCursorElement)))
      ensures Outline() == old(Outline()) && Extents() == old(Extents())
    {
      ghost var dragged := Views();
      TrackHover();
      FacesOfHover(dragged, ws, HoverFires(old(prevOnCursorElement), onCursorElement));
    }

    /** The element part of `on_cursor_pos_event` (12_imgui/src/ui/window.rs:232-249): hit test, the hit element's event, the hover change, and the record for the next event. */
    method TrackHover()
      requires Valid()
      modifies this`prevCursorPos, this`onCursorElement, this`prevOnCursorElement, ElementsRepr()
      ensures Valid() && Anchors() == old(Anchors())
      ensures onCursorElement == Topmost(RectsOf(Views()), cursorPos, false)
      ensures prevOnCursorElement == onCursorElement && prevCursorPos == cursorPos
      ensures Views() == HoverViews(old(Views()), HoverFires(old(prevOnCursorElement), onCursorElement))
      ensures Snapshots() == old(Snapshots()) && Forms() == old(Forms())
    {
      var hit := HitElement();
      Rehover(hit);
    }

    /** The hover change for a hit and the record for the next event (12_imgui/src/ui/window.rs:240-248). */
    method Rehover(hit: Option<nat>)
      requires Valid() && (hit.Some? ==> hit.value < ElementCount)
      modifies this`prevCursorPos, this`onCursorElement, this`prevOnCursorElement, ElementsRepr()
      ensures Valid() && Anchors() == old(Anchors())
      ensures onCursorElement == hit && prevOnCursorElement == hit && prevCursorPos == cursorPos
      ensures Views() == HoverViews(old(Views()), HoverFires(old(prevOnCursorElement), hit))
      ensures Snapshots() == old(Snapshots()) && Forms() == old(Forms())
    {
      HoverElements(hit);
      RecordHover(hit);
    }

    /** The hit test of `on_cursor_pos_event` and the hit element's own cursor event (12_imgui/src/ui/window.rs:232-239). */
    method HitElement() returns (hit: Option<nat>)
      requires Valid()
      modifies ElementsRepr()
      ensures Valid() && Views() == old(Views()) && Anchors() == old(Anchors()) && Snapshots() == old(Snapshots())
      ensures Forms() == old(Forms())
      ensures hit == Topmost(RectsOf(Views()), cursorPos, false)
      ensures hit.Some? ==> hit.value < ElementCount
    {
      hit := ScanElements();
      if hit.Some? {
        CursorElement(hit.value);
      }
    }

    /** The last step of `on_cursor_pos_event`: `hit` becomes the current and the previous hover, and the cursor the previous one. */
    method RecordHover(hit: Option<nat>)
      requires Valid() && (hit.Some? ==> hit.value < ElementCount)
      modifies this`prevCursorPos, this`onCursorElement, this`prevOnCursorElement
      ensures Valid()
      ensures onCursorElement == hit && prevOnCursorElement == hit && prevCursorPos == cursorPos
      ensures Views() == old(Views()) && Anchors() == old(Anchors()) && Snapshots() == old(Snapshots()) && Shapes() == old(Shapes()) && Forms() == old(Forms())
    {
      onCursorElement, prevOnCursorElement, prevCursorPos := hit, hit, cursorPos;
      Object.Untouched(Siblings(elements, ElementsRepr()));
    }

    /** The store of the new cursor position that opens `on_cursor_pos_event` (12_imgui/src/ui/window.rs:188). */
    method PlaceCursor(x: real, y: real)
      requires Valid()
      modifies this`cursorPos
      ensures Valid() && cursorPos == Vec2(x, y)
      ensures Views() == old(Views()) && Snapshots() == old(Snapshots())
      ensures Shapes() == old(Shapes())
    {
      ghost var t0, v0, a0 := Snapshots(), Views(), Shapes();
      cursorPos := Vec2(x, y);
      assert Snapshots() == t0 && Views() == v0 && Shapes() == a0;
    }

    /** The frame part of `on_cursor_pos_event` (12_imgui/src/ui/window.rs:188-231): store the cursor, drag, then re-anchor the buttons after a resize. */
    method FollowCursor(x: real, y: real, ghost g0: Grip)
      requires Valid() && g0 == Hold()
      modifies this`cursorPos, this`pos, this`backgroundWidth, this`backgroundHeight, this`contentWidth, this`contentHeight, ElementsRepr()
      ensures Valid() && cursorPos == Vec2(x, y)
      ensures Outline() == Dragged(old(Outline()), cursorPos, g0, MinWidth(), MinHeight())
      ensures Faces(Views()) == old(Faces(Views())) && Shapes() == Fit(old(Shapes()))
      ensures Resizing(g0) ==> ButtonsAnchored()
      ensures !Resizing(g0) ==> Anchors() == old(Anchors())
      ensures Snapshots() == if Resizing(g0) then Anchored(Moved(old(Snapshots()), g0, pos), ButtonSlots(backgroundWidth, borderSize, buttonWidth)) else Moved(old(Snapshots()), g0, pos)
    {
      PlaceCursor(x, y);
      DragAndAnchor(old(Outline()), g0);
    }

    /** The drag and the re-anchoring of the buttons after a resize (12_imgui/src/ui/window.rs:190-231). */
    method DragAndAnchor(ghost f0: Frame, ghost g0: Grip)
      requires Valid() && f0 == Outline() && g0 == Hold()
      modifies this`pos, this`backgroundWidth, this`backgroundHeight, this`contentWidth, this`contentHeight, ElementsRepr()
      ensures Valid()
      ensures Outline() == Dragged(f0, cursorPos, g0, MinWidth(), MinHeight())
      ensures Faces(Views()) == old(Faces(Views()))
      ensures Shapes() == Fit(old(Shapes()))
      ensures Resizing(g0) ==> ButtonsAnchored()
      ensures !Resizing(g0) ==> Anchors() == old(Anchors())
      ensures Snapshots() == if Resizing(g0) then Anchored(Moved(old(Snapshots()), g0, pos), ButtonSlots(backgroundWidth, borderSize, buttonWidth)) else Moved(old(Snapshots()), g0, pos)
    {
      DragFrame();
      AnchorIfResizing(g0);
    }

    /** The last step of the frame part (12_imgui/src/ui/window.rs:227-231): after a resize the buttons go back to their slots, and otherwise nothing changes. */
    method AnchorIfResizing(ghost g0: Grip)
      requires Valid() && |g0.sizing| == 4 && g0.sizing == sizing
      modifies ElementsRepr()
      ensures Valid()
      ensures Faces(Views()) == old(Faces(Views())) && Shapes() == old(Shapes())
      ensures Resizing(g0) ==> ButtonsAnchored()
      ensures !Resizing(g0) ==> Anchors() == old(Anchors())
      ensures Snapshots() == if Resizing(g0) then Anchored(old(Snapshots()), ButtonSlots(backgroundWidth, borderSize, buttonWidth)) else old(Snapshots())
      ensures Extents() == old(Extents()) && Outline() == old(Outline())
    {
      if sizing[0] || sizing[1] || sizing[2] || sizing[3] {
        AnchorButtons();
      }
    }

    /** The moving and resizing steps of `on_cursor_pos_event` (12_imgui/src/ui/window.rs:190-226). */
    method DragFrame()
      requires Valid()
      modifies this`pos, this`backgroundWidth, this`backgroundHeight, this`contentWidth, this`contentHeight, ElementsRepr()
      ensures Valid()
      ensures Outline() == Dragged(old(Outline()), cursorPos, Hold(), MinWidth(), MinHeight())
      ensures Faces(Views()) == old(Faces(Views())) && Anchors() == old(Anchors())
      ensures Shapes() == Fit(old(Shapes()))
      ensures Snapshots() == Moved(old(Snapshots()), Hold(), pos)
    {
      var tw, th := backgroundWidth, backgroundHeight;
      FollowTitle();
      ghost var p := pos;
      DragEdges(tw, th);
      SetBaseEachTwice(old(Snapshots()), if moving then Some(p.x) else None, if moving then Some(p.y) else None,
        if sizing[3] then Some(pos.x) else None, if sizing[0] then Some(pos.y) else None);
    }

    /**
     * The edge steps of `on_cursor_pos_event` (12_imgui/src/ui/window.rs:195-226),
     * for a frame that was `tw` wide and `th` tall when the event began: the
     * top, right, bottom and left edges in that order. The elements are
     * rebased onto the corner on each axis whose start edge is held.
     */
    method DragEdges(tw: real, th: real)
      requires Valid()
      modifies this`pos, this`backgroundWidth, this`backgroundHeight, this`contentWidth, this`contentHeight, ElementsRepr()
      ensures Valid()
      ensures Outline() == EdgesDragged(old(Outline()), tw, th, cursorPos, Hold(), MinWidth(), MinHeight())
      ensures Faces(Views()) == old(Faces(Views())) && Anchors() == old(Anchors())
      ensures Shapes() == Fit(old(Shapes()))
      ensures Snapshots() == SetBaseEach(old(Snapshots()), if sizing[3] then Some(pos.x) else None, if sizing[0] then Some(pos.y) else None)
      ensures (!sizing[3] ==> pos.x == old(pos.x)) && (!sizing[0] ==> pos.y == old(pos.y))
    {
      ghost var o0 := Outline();
      DragTop(th);
      ghost var e1, o1 := Extents(), Outline();
      DragSides(tw);
      EdgesInSteps(o0, o1, Outline(), tw, th, cursorPos, Hold(), MinWidth(), MinHeight());
      FittedTwice(old(Shapes()), e1.0, e1.1, Extents().0, Extents().1);
      SetBaseEachSplit(old(Snapshots()), if sizing[3] then Some(pos.x) else None, if sizing[0] then Some(pos.y) else None);
    }

    /** The right, bottom and left edge steps (12_imgui/src/ui/window.rs:204-226), the left one against the width `tw` the frame had when the event began. */
    method DragSides(tw: real)
      requires Valid()
      modifies this`pos, this`backgroundWidth, this`backgroundHeight, this`contentWidth, this`contentHeight, ElementsRepr()
      ensures Valid()
      ensures Outline() == var f3 := EndsDragged(old(Outline()), cursorPos, Hold(), MinWidth(), MinHeight());
        if sizing[3] then LeftDragged(f3, tw, cursorPos, frameCursorGap, MinWidth()) else f3
      ensures Faces(Views()) == old(Faces(Views())) && Anchors() == old(Anchors())
      ensures Shapes() == Fit(old(Shapes()))
      ensures Snapshots() == SetBaseEach(old(Snapshots()), if sizing[3] then Some(pos.x) else None, None)
      ensures pos.y == old(pos.y) && (!sizing[3] ==> pos.x == old(pos.x))
    {
      DragEnds();
      ghost var e3 := Extents();
      DragLeft(tw);
      FittedTwice(old(Shapes()), e3.0, e3.1, Extents().0, Extents().1);
    }

    /** The title-band step (12_imgui/src/ui/window.rs:192-194): a held title band puts the corner at the cursor minus the gap. */
    method FollowTitle()
      requires Valid()
      modifies this`pos, this`backgroundWidth, this`backgroundHeight, this`contentWidth, this`contentHeight, ElementsRepr()
      ensures Valid()
      ensures Outline() == if moving then old(Outline()).(pos := cursorPos.Minus(frameCursorGap)) else old(Outline())
      ensures Faces(Views()) == old(Faces(Views())) && Anchors() == old(Anchors())
      ensures Shapes() == old(Shapes())
      ensures pos == if moving then cursorPos.Minus(frameCursorGap) else old(pos)
      ensures Snapshots() == SetBaseEach(old(Snapshots()), if moving then Some(pos.x) else None, if moving then Some(pos.y) else None)
    {
      if moving {
        SetPos(Some(cursorPos.x - frameCursorGap.x), Some(cursorPos.y - frameCursorGap.y));
      }
    }

    /**
     * The top-edge step (12_imgui/src/ui/window.rs:195-203): against the
     * height `th` the frame had when the event began, the top goes to the
     * cursor minus the gap and the bottom stays, unless that leaves less
     * than the minimum height.
     */
    method DragTop(th: real)
      requires Valid()
      modifies this`pos, this`backgroundWidth, this`backgroundHeight, this`contentWidth, this`contentHeight, ElementsRepr()
      ensures Valid()
      ensures Outline() == if sizing[0] then TopDragged(old(Outline()), th, cursorPos, frameCursorGap, MinHeight()) else old(Outline())
      ensures Faces(Views()) == old(Faces(Views())) && Anchors() == old(Anchors())
      ensures Shapes() == Fit(old(Shapes()))
      ensures Snapshots() == SetBaseEach(old(Snapshots()), None, if sizing[0] then Some(pos.y) else None)
      ensures pos.x == old(pos.x) && (!sizing[0] ==> pos.y == old(pos.y))
    {
      if sizing[0] {
        PullTop(th);
      } else {
        FitLaid();
      }
    }

    /** The body of the top-edge step, once the top edge is held. */
    method PullTop(th: real)
      requires Valid()
      modifies this`pos, this`backgroundWidth, this`backgroundHeight, this`contentWidth, this`contentHeight, ElementsRepr()
      ensures Valid()
      ensures Outline() == TopDragged(old(Outline()), th, cursorPos, frameCursorGap, MinHeight())
      ensures Faces(Views()) == old(Faces(Views())) && Anchors() == old(Anchors())
      ensures Shapes() == Fit(old(Shapes()))
      ensures Snapshots() == SetBaseEach(old(Snapshots()), None, Some(pos.y))
    {
      ghost var f := Outline();
      ghost var s := DragStart(Span(pos.y, th), cursorPos.y, frameCursorGap.y, MinHeight());
      assert TopDragged(f, th, cursorPos, frameCursorGap, MinHeight()) == Frame(Vec2(f.pos.x, s.start), f.width, s.extent);
      var top := th - (cursorPos.y - pos.y - frameCursorGap.y);
      if MinHeight() < top {
        ResizeAndMove(None, Some(top), None, Some(cursorPos.y - frameCursorGap.y));
      } else {
        ResizeAndMove(None, Some(MinHeight()), None, Some(pos.y + th - MinHeight()));
      }
      assert pos == Vec2(f.pos.x, s.start) && backgroundHeight == s.extent && backgroundWidth == f.width;
    }

    /** `set_background_size(w, h)` followed by `set_pos(x, y)`, as the top-edge and left-edge steps do. */
    method ResizeAndMove(w: Option<real>, h: Option<real>, x: Option<real>, y: Option<real>)
      requires Valid()
      modifies this`pos, this`backgroundWidth, this`backgroundHeight, this`contentWidth, this`contentHeight, ElementsRepr()
      ensures Valid()
      ensures backgroundWidth == Pick(w, old(backgroundWidth)) && backgroundHeight == Pick(h, old(backgroundHeight))
      ensures pos == Vec2(Pick(x, old(pos).x), Pick(y, old(pos).y))
      ensures Faces(Views()) == old(Faces(Views())) && Anchors() == old(Anchors())
      ensures Shapes() == Fit(old(Shapes()))
      ensures Snapshots() == SetBaseEach(old(Snapshots()), x, y)
    {
      ghost var a0 := Shapes();
      SetBackgroundSize(w, h);
      ghost var a1 := Fit(a0);
      assert Shapes() == a1;
      SetPos(x, y);
      assert Shapes() == a1;
    }

    /** The right-edge step (12_imgui/src/ui/window.rs:204-210): the width reaches to the cursor plus the gap, but not below the minimum. */
    method DragRight()
      requires Valid()
      modifies this`backgroundWidth, this`backgroundHeight, this`contentWidth, this`contentHeight, ElementsRepr()
      ensures Valid()
      ensures Outline() == if sizing[1] then old(Outline()).(width := DragEnd(pos.x, cursorPos.x, frameCursorGap.x, MinWidth())) else old(Outline())
      ensures Faces(Views()) == old(Faces(Views())) && Anchors() == old(Anchors())
      ensures Shapes() == Fit(old(Shapes()))
      ensures Snapshots() == old(Snapshots())
    {
      if sizing[1] {
        if MinWidth() < cursorPos.x - pos.x + frameCursorGap.x {
          SetBackgroundSize(Some(cursorPos.x - pos.x + frameCursorGap.x), None);
        } else {
          SetBackgroundSize(Some(MinWidth()), None);
        }
      } else {
        FitLaid();
      }
    }

    /** The bottom-edge step (12_imgui/src/ui/window.rs:211-217): the height reaches to the cursor plus the gap, but not below the minimum. */
    method DragBottom()
      requires Valid()
      modifies this`backgroundWidth, this`backgroundHeight, this`contentWidth, this`contentHeight, ElementsRepr()
      ensures Valid()
      ensures Outline() == if sizing[2] then old(Outline()).(height := DragEnd(pos.y, cursorPos.y, frameCursorGap.y, MinHeight())) else old(Outline())
      ensures Faces(Views()) == old(Faces(Views())) && Anchors() == old(Anchors())
      ensures Shapes() == Fit(old(Shapes()))
      ensures Snapshots() == old(Snapshots())
    {
      if sizing[2] {
        if MinHeight() < cursorPos.y - pos.y + frameCursorGap.y {
          SetBackgroundSize(None, Some(cursorPos.y - pos.y + frameCursorGap.y));
        } else {
          SetBackgroundSize(None, Some(MinHeight()));
        }
      } else {
        FitLaid();
      }
    }

    /** The right-edge and bottom-edge steps, which leave the corner where it is. */
    method DragEnds()
      requires Valid()
      modifies this`backgroundWidth, this`backgroundHeight, this`contentWidth, this`contentHeight, ElementsRepr()
      ensures Valid()
      ensures Outline() == EndsDragged(old(Outline()), cursorPos, Hold(), MinWidth(), MinHeight())
      ensures Faces(Views()) == old(Faces(Views())) && Anchors() == old(Anchors())
      ensures Shapes() == Fit(old(Shapes()))
      ensures Snapshots() == old(Snapshots())
    {
      DragRight();
      ghost var e1 := Extents();
      DragBottom();
      FittedTwice(old(Shapes()), e1.0, e1.1, Extents().0, Extents().1);
    }

    /**
     * The left-edge step (12_imgui/src/ui/window.rs:218-226): against the
     * width `tw` the frame had when the event began, the left edge goes to
     * the cursor minus the gap and the right stays, unless that leaves less
     * than the minimum width.
     */
    method DragLeft(tw: real)
      requires Valid()
      modifies this`pos, this`backgroundWidth, this`backgroundHeight, this`contentWidth, this`contentHeight, ElementsRepr()
      ensures Valid()
      ensures Outline() == if sizing[3] then LeftDragged(old(Outline()), tw, cursorPos, frameCursorGap, MinWidth()) else old(Outline())
      ensures Faces(Views()) == old(Faces(Views())) && Anchors() == old(Anchors())
      ensures Shapes() == Fit(old(Shapes()))
      ensures Snapshots() == SetBaseEach(old(Snapshots()), if sizing[3] then Some(pos.x) else None, None)
      ensures pos.y == old(pos.y) && (!sizing[3] ==> pos.x == old(pos.x))
    {
      if sizing[3] {
        PullLeft(tw);
      } else {
        FitLaid();
      }
    }

    /** The body of the left-edge step, once the left edge is held. */
    method PullLeft(tw: real)
      requires Valid()
      modifies this`pos, this`backgroundWidth, this`backgroundHeight, this`contentWidth, this`contentHeight, ElementsRepr()
      ensures Valid()
      ensures Outline() == LeftDragged(old(Outline()), tw, cursorPos, frameCursorGap, MinWidth())
      ensures Faces(Views()) == old(Faces(Views())) && Anchors() == old(Anchors())
      ensures Shapes() == Fit(old(Shapes()))
      ensures Snapshots() == SetBaseEach(old(Snapshots()), Some(pos.x), None)
    {
      ghost var f := Outline();
      ghost var s := DragStart(Span(pos.x, tw), cursorPos.x, frameCursorGap.x, MinWidth());
      assert LeftDragged(f, tw, cursorPos, frameCursorGap, MinWidth()) == Frame(Vec2(s.start, f.pos.y), s.extent, f.height);
      var left := tw - (cursorPos.x - pos.x - frameCursorGap.x);
      if MinWidth() < left {
        ResizeAndMove(Some(left), None, Some(cursorPos.x - frameCursorGap.x), None);
      } else {
        ResizeAndMove(Some(MinWidth()), None, Some(pos.x + tw - MinWidth()), None);
      }
      assert pos == Vec2(s.start, f.pos.y) && backgroundWidth == s.extent && backgroundHeight == f.height;
    }

    /** The button step (12_imgui/src/ui/window.rs:227-231): each button goes back to its slot for the current background width. */
    method AnchorButtons()
      requires Valid()
      modifies elements[CloseIndex].Repr, elements[MaximizeIndex].Repr, elements[MinimizeIndex].Repr
      ensures Valid() && ButtonsAnchored()
      ensures Faces(Views()) == old(Faces(Views()))
      ensures Shapes() == old(Shapes())
      ensures Snapshots() == Anchored(old(Snapshots()), ButtonSlots(backgroundWidth, borderSize, buttonWidth))
      ensures unchanged(this)
    {
      RelocateElement(CloseIndex, backgroundWidth - borderSize - buttonWidth * 2.0);
      AnchorOuterButtons();
      assert Anchors() == ButtonSlots(backgroundWidth, borderSize, buttonWidth);
    }

    /** The maximize and minimize moves of that step. */
    method AnchorOuterButtons()
      requires Valid()
      modifies elements[MaximizeIndex].Repr, elements[MinimizeIndex].Repr
      ensures Valid() && elements[CloseIndex].localPos == old(elements[CloseIndex].localPos)
      ensures elements[MaximizeIndex].localPos.x == backgroundWidth - borderSize - buttonWidth * 3.0
      ensures elements[MinimizeIndex].localPos.x == backgroundWidth - borderSize - buttonWidth * 4.0
      ensures Faces(Views()) == old(Faces(Views()))
      ensures Shapes() == old(Shapes())
      ensures Snapshots() == old(Snapshots())
        [MaximizeIndex := SetLocal(old(Snapshots())[MaximizeIndex], Some(backgroundWidth - borderSize - buttonWidth * 3.0), None)]
        [MinimizeIndex := SetLocal(old(Snapshots())[MinimizeIndex], Some(backgroundWidth - borderSize - buttonWidth * 4.0), None)]
      ensures unchanged(this)
    {
      RelocateElement(MaximizeIndex, backgroundWidth - borderSize - buttonWidth * 3.0);
      RelocateElement(MinimizeIndex, backgroundWidth - borderSize - buttonWidth * 4.0);
    }

    /** The reverse scan of `on_cursor_pos_event` (12_imgui/src/ui/window.rs:232-239): the topmost element whose rectangle holds the cursor. */
    method ScanElements() returns (hit: Option<nat>)
      requires Owned()
      ensures hit == Topmost(RectsOf(Views()), cursorPos, false)
    {
      var i := ElementCount;
      while i > 0
        invariant 0 <= i <= ElementCount
        invariant Topmost(RectsOf(Views()), cursorPos, false) == TopmostBelow(RectsOf(Views()), cursorPos, false, i)
      {
        i := i - 1;
        if InHalfOpen(elements[i].Rect(), cursorPos) {
          return Some(i);
        }
      }
      return None;
    }

    /** The hovered element `i` gets the cursor event; what the window sees of it does not change. */
    method CursorElement(i: nat)
      requires Valid() && i < ElementCount
      modifies elements[i].Repr
      ensures Valid()
      ensures Views() == old(Views()) && Anchors() == old(Anchors()) && Snapshots() == old(Snapshots())
      ensures Forms() == old(Forms())
    {
      ElementValid(i);
      elements[i].OnCursorPosEvent(cursorPos);
      ElementChanged(i);
      ElementTreesKept(i);
    }

    /** The hover change of `on_cursor_pos_event` (12_imgui/src/ui/window.rs:240-247): when `hit` differs from the previous hover, it is entered and that one left. */
    method HoverElements(hit: Option<nat>)
      requires Valid() && (hit.Some? ==> hit.value < ElementCount)
      modifies ElementsRepr()
      ensures Valid() && Anchors() == old(Anchors()) && Snapshots() == old(Snapshots()) && Forms() == old(Forms())
      ensures Views() == HoverViews(old(Views()), HoverFires(prevOnCursorElement, hit))
    {
      if hit != prevOnCursorElement {
        if hit.Some? {
          EnterElement(hit.value);
        }
        if prevOnCursorElement.Some? {
          LeaveElement(prevOnCursorElement.value);
        }
      }
    }

    /** Element `i` runs `mouse_on`. */
    method EnterElement(i: nat)
      requires Valid() && i < ElementCount
      modifies elements[i].Repr
      ensures Valid() && Anchors() == old(Anchors()) && Snapshots() == old(Snapshots())
      ensures Views() == old(Views())[i := old(Views())[i].(look := Entered(old(Views())[i].look, old(Views())[i].events))]
      ensures Forms() == old(Forms())
    {
      ElementValid(i);
      elements[i].MouseOn();
      ElementChanged(i);
      ElementTreesKept(i);
    }

    /** Element `i` runs `mouse_off`. */
    method LeaveElement(i: nat)
      requires Valid() && i < ElementCount
      modifies elements[i].Repr
      ensures Valid() && Anchors() == old(Anchors()) && Snapshots() == old(Snapshots())
      ensures Views() == old(Views())[i := old(Views())[i].(look := Left(old(Views())[i].look, old(Views())[i].events))]
      ensures Forms() == old(Forms())
    {
      ElementValid(i);
      elements[i].MouseOff();
      ElementChanged(i);
      ElementTreesKept(i);
    }

    /** Element `i` runs `mouse_down`. */
    method PressElement(i: nat)
      requires Valid() && i < ElementCount
      modifies elements[i].Repr
      ensures Valid() && Anchors() == old(Anchors())
      ensures Views() == PressAt(old(Views()), i)
      ensures Snapshots() == old(Snapshots())[i := PressedPos(old(Snapshots())[i], old(Shapes())[i])]
      ensures Forms() == old(Forms())[i := PressedForm(old(Forms())[i], old(Shapes())[i])]
    {
      ElementValid(i);
      elements[i].MouseDown();
      ElementChanged(i);
      ElementTreesChanged(i);
    }

    /** Element `i` runs `mouse_up`. */
    method ReleaseElement(i: nat)
      requires Valid() && i < ElementCount
      modifies elements[i].Repr
      ensures Valid() && Anchors() == old(Anchors())
      ensures Views() == ReleaseAt(old(Views()), i)
      ensures Snapshots() == old(Snapshots()) && Forms() == old(Forms())
    {
      ElementValid(i);
      elements[i].MouseUp();
      ElementChanged(i);
      ElementTreesKept(i);
    }

    /** `mouse_on` (12_imgui/src/ui/window.rs:252-257): the hovered element, if any, is entered. */
    method MouseOn()
      requires Valid()
      modifies ElementsRepr()
      ensures Valid() && Anchors() == old(Anchors())
      ensures Views() == HoverViews(old(Views()), Fired(onCursorElement, None))
      ensures Snapshots() == old(Snapshots()) && Forms() == old(Forms())
    {
      if onCursorElement.Some? {
        EnterElement(onCursorElement.value);
      }
    }

    /**
     * `mouse_off` (12_imgui/src/ui/window.rs:259-265): the hovered element,
     * if any, is left and the hover cleared; the hover recorded by the
     * previous cursor event is kept.
     */
    method MouseOff()
      requires Valid()
      modifies this`onCursorElement, ElementsRepr()
      ensures Valid() && Anchors() == old(Anchors())
      ensures onCursorElement == None
      ensures Views() == HoverViews(old(Views()), Fired(None, old(onCursorElement)))
      ensures Snapshots() == old(Snapshots()) && Forms() == old(Forms())
    {
      if onCursorElement.Some? {
        LeaveElement(onCursorElement.value);
        Unhover();
      }
    }

    /** The hover is cleared; nothing else changes. */
    method Unhover()
      requires Valid()
      modifies this`onCursorElement
      ensures Valid() && onCursorElement == None
      ensures Views() == old(Views()) && Anchors() == old(Anchors()) && Snapshots() == old(Snapshots()) && Shapes() == old(Shapes()) && Forms() == old(Forms())
    {
      onCursorElement := None;
      Object.Untouched(Siblings(elements, ElementsRepr()));
    }

    /**
     * `mouse_down` (12_imgui/src/ui/window.rs:267-294): a press on the
     * background arms the drag as `Armed` says, from the frame and the
     * cursor; then the hovered element, if any, is pressed.
     */
    method MouseDown()
      requires Valid()
      modifies this`moving, this`sizing, this`frameCursorGap, ElementsRepr()
      ensures Valid() && Anchors() == old(Anchors())
      ensures Hold() == if onCursorElement == Some(BackgroundIndex) then Armed(old(Hold()), Outline(), cursorPos, borderSize, borderRatio) else old(Hold())
      ensures Views() == if onCursorElement.Some? then PressAt(old(Views()), onCursorElement.value) else old(Views())
      ensures Snapshots() == if onCursorElement.Some? then old(Snapshots())[onCursorElement.value := PressedPos(old(Snapshots())[onCursorElement.value], old(Shapes())[onCursorElement.value])] else old(Snapshots())
      ensures Forms() == if onCursorElement.Some? then old(Forms())[onCursorElement.value := PressedForm(old(Forms())[onCursorElement.value], old(Shapes())[onCursorElement.value])] else old(Forms())
    {
      Grab();
      if onCursorElement.Some? {
        PressElement(onCursorElement.value);
      }
    }

    /** The first half of `mouse_down`: a press on the background arms the drag; the elements do not change. */
    method Grab()
      requires Valid()
      modifies this`moving, this`sizing, this`frameCursorGap
      ensures Valid() && Views() == old(Views()) && Anchors() == old(Anchors()) && Snapshots() == old(Snapshots()) && Shapes() == old(Shapes()) && Forms() == old(Forms())
      ensures Hold() == if onCursorElement == Some(BackgroundIndex) then Armed(old(Hold()), Outline(), cursorPos, borderSize, borderRatio) else old(Hold())
    {
      if onCursorElement == Some(BackgroundIndex) {
        Arm();
      }
      Object.Untouched(Siblings(elements, ElementsRepr()));
    }

    /** The arming half of `mouse_down` (12_imgui/src/ui/window.rs:269-290). */
    method Arm()
      requires |sizing| == 4
      modifies this`moving, this`sizing, this`frameCursorGap
      ensures Hold() == Armed(old(Hold()), Outline(), cursorPos, borderSize, borderRatio)
    {
      var f, c := Outline(), cursorPos;
      ghost var g := Hold();
      if InTitle(f, c, borderSize, borderRatio) {
        moving := true;
        frameCursorGap := c.Minus(pos);
      }
      assert Hold() == if InTitle(f, c, borderSize, borderRatio) then g.(moving := true, gap := c.Minus(f.pos)) else g;
      g := Hold();
      if OnEdge(f, c, borderSize, 0) {
        sizing := sizing[0 := true];
        frameCursorGap := frameCursorGap.(y := c.y - pos.y);
      }
      assert Hold() == if OnEdge(f, c, borderSize, 0) then g.(sizing := g.sizing[0 := true], gap := g.gap.(y := c.y - f.pos.y)) else g;
      g := Hold();
      if OnEdge(f, c, borderSize, 1) {
        sizing := sizing[1 := true];
        frameCursorGap := frameCursorGap.(x := pos.x + backgroundWidth - c.x);
      }
      assert Hold() == if OnEdge(f, c, borderSize, 1) then g.(sizing := g.sizing[1 := true], gap := g.gap.(x := f.pos.x + f.width - c.x)) else g;
      g := Hold();
      if OnEdge(f, c, borderSize, 2) {
        sizing := sizing[2 := true];
        frameCursorGap := frameCursorGap.(y := pos.y + backgroundHeight - c.y);
      }
      assert Hold() == if OnEdge(f, c, borderSize, 2) then g.(sizing := g.sizing[2 := true], gap := g.gap.(y := f.pos.y + f.height - c.y)) else g;
      if OnEdge(f, c, borderSize, 3) {
        sizing := sizing[3 := true];
        frameCursorGap := frameCursorGap.(x := c.x - pos.x);
      }
    }

    /**
     * `mouse_up` (12_imgui/src/ui/window.rs:296-304): releasing over the
     * close button while it is pressed closes the window; then the hovered
     * element, if any, is released.
     */
    method MouseUp()
      requires Valid()
      modifies this`closed, ElementsRepr()
      ensures Valid() && Anchors() == old(Anchors())
      ensures closed == (old(closed) || (onCursorElement == Some(CloseIndex) && old(Views())[CloseIndex].look.pressed))
      ensures Views() == if onCursorElement.Some? then ReleaseAt(old(Views()), onCursorElement.value) else old(Views())
      ensures Snapshots() == old(Snapshots()) && Forms() == old(Forms())
    {
      CloseIfPressed();
      if onCursorElement.Some? {
        ReleaseElement(onCursorElement.value);
      }
    }

    /** The first half of `mouse_up`: a release over the pressed close button closes the window; the elements do not change. */
    method CloseIfPressed()
      requires Valid()
      modifies this`closed
      ensures Valid() && Views() == old(Views()) && Anchors() == old(Anchors()) && Snapshots() == old(Snapshots()) && Shapes() == old(Shapes()) && Forms() == old(Forms())
      ensures closed == (old(closed) || (onCursorElement == Some(CloseIndex) && Views()[CloseIndex].look.pressed))
    {
      if onCursorElement == Some(CloseIndex) && elements[CloseIndex].pressed {
        closed := true;
      }
      Object.Untouched(Siblings(elements, ElementsRepr()));
    }
  }

  /** Every tree of `ts` after `set_base_pos(x, y)`; with neither axis given, `ts` itself. */
  function SetBaseEach(ts: seq<PosTree>, x: Option<real>, y: Option<real>): (r: seq<PosTree>)
    ensures |r| == |ts|
    ensures x.None? && y.None? ==> r == ts
  {
    seq(|ts|, i requires 0 <= i < |ts| => SetBase(ts[i], x, y))
  }

  /** A rebase of one axis followed by a rebase of the other is the rebase of both. */
  lemma SetBaseEachSplit(ts: seq<PosTree>, x: Option<real>, y: Option<real>)
    ensures SetBaseEach(SetBaseEach(ts, None, y), x, None) == SetBaseEach(ts, x, y)
  {
    SetBaseEachTwice(ts, None, y, x, None);
  }

  /** Two rounds of `set_base_pos` over all of `ts` act as one, as `SetBaseTwice` says for a single tree. */
  lemma SetBaseEachTwice(ts: seq<PosTree>, x1: Option<real>, y1: Option<real>, x2: Option<real>, y2: Option<real>)
    ensures SetBaseEach(SetBaseEach(ts, x1, y1), x2, y2) == SetBaseEach(ts, if x2.Some? then x2 else x1, if y2.Some? then y2 else y1)
  {
    forall i | 0 <= i < |ts|
      ensures SetBase(SetBase(ts[i], x1, y1), x2, y2) == SetBase(ts[i], if x2.Some? then x2 else x1, if y2.Some? then y2 else y1)
    {
      SetBaseTwice(ts[i], x1, y1, x2, y2);
    }
  }

  /**
   * The element positions `ts` after a drag with grip `gr` that left the
   * corner at `p`: every element is rebased onto the corner on each axis
   * that the title band or a start edge (the top one down, the left one
   * across) moves.
   */
  function Moved(ts: seq<PosTree>, gr: Grip, p: Vec2): seq<PosTree>
    requires |gr.sizing| == 4
  {
    SetBaseEach(ts, if gr.moving || gr.sizing[3] then Some(p.x) else None, if gr.moving || gr.sizing[0] then Some(p.y) else None)
  }

  /** The element positions `ts` with the close, maximize and minimize buttons moved across to `slots` by `set_local_pos`. */
  function Anchored(ts: seq<PosTree>, slots: (real, real, real)): (r: seq<PosTree>)
    requires |ts| == ElementCount
    ensures |r| == ElementCount
  {
    ts[CloseIndex := SetLocal(ts[CloseIndex], Some(slots.0), None)]
      [MaximizeIndex := SetLocal(ts[MaximizeIndex], Some(slots.1), None)]
      [MinimizeIndex := SetLocal(ts[MinimizeIndex], Some(slots.2), None)]
  }

  /** The shapes `ss` of the elements with the background resized to `bg` and the content element to `content`. */
  function Fitted(ss: seq<ShapeTree>, bg: (real, real), content: (real, real)): (r: seq<ShapeTree>)
    requires |ss| == ElementCount
    ensures |r| == ElementCount
  {
    ss[BackgroundIndex := ss[BackgroundIndex].(size := bg)][ContentIndex := ss[ContentIndex].(size := content)]
  }

  /** Resizing the background and content elements commutes with masking their shapes. */
  lemma MaskedFitted(ss: seq<ShapeTree>, bg: (real, real), content: (real, real))
    requires |ss| == ElementCount
    ensures MaskedAll(Fitted(ss, bg, content)) == Fitted(MaskedAll(ss), bg, content)
  {
    MaskedSized(ss[BackgroundIndex], bg);
    MaskedSized(ss[ContentIndex], content);
  }

  /** Of two resizes the later one wins. */
  lemma FittedTwice(ss: seq<ShapeTree>, bg: (real, real), content: (real, real), bg': (real, real), content': (real, real))
    requires |ss| == ElementCount
    ensures Fitted(Fitted(ss, bg, content), bg', content') == Fitted(ss, bg', content')
  {
  }
}
