/**
 * The widget node of the 12_imgui stage (12_imgui/src/ui/object.rs): a
 * rectangle with a border and a content area, drawn from two vertex
 * buffers that every setter patches slot by slot, owning an ordered list of
 * child widgets (the last one is on top) and routing cursor and button
 * events to them.
 *
 * The program shares children through `Rc<RefCell<..>>`; here every node
 * owns its children, and the `Repr` sets of siblings are disjoint.
 */
module ImguiObject {
  import opened Common
  import opened Style
  import opened Layout
  import opened PositionTree
  import opened HitTest
  import opened ChildList

  /** What the content area is filled with (`ShaderType`). */
  datatype ShaderType = ColorOnly | Texture | Mix

  /**
   * The per-event callbacks. In the program they are closures; every one
   * the program installs either does nothing or sets the background colour.
   */
  datatype Callback = Noop | Paint(color: Color)

  datatype Events = Events(on: Callback, off: Callback, down: Callback, up: Callback)

  /** The background a callback leaves: `Paint` sets it, `Noop` keeps it. */
  function AfterCallback(cb: Callback, bg: Color): Color
  {
    match cb
    case Noop => bg
    case Paint(c) => c
  }

  /** What hover and button events change on a node they reach: its background and its pressed flag. */
  datatype Look = Look(color: Color, pressed: bool)

  /** `mouse_on`: the enter callback runs. */
  function Entered(l: Look, ev: Events): Look
  {
    Look(AfterCallback(ev.on, l.color), l.pressed)
  }

  /** `mouse_off`: the node is released and the leave callback runs. */
  function Left(l: Look, ev: Events): Look
  {
    Look(AfterCallback(ev.off, l.color), false)
  }

  /** `mouse_down`: the node is pressed and the press callback runs. */
  function Pressed(l: Look, ev: Events): Look
  {
    Look(AfterCallback(ev.down, l.color), true)
  }

  /** `mouse_up`: the node is released and the release callback runs. */
  function Released(l: Look, ev: Events): Look
  {
    Look(AfterCallback(ev.up, l.color), false)
  }

  /** What a parent sees of a child: its look, its screen rectangle and its callbacks. */
  datatype ChildView = ChildView(look: Look, rect: Rect, events: Events)

  /** The rectangles of the views, back to front. */
  function RectsOf(vs: seq<ChildView>): (r: seq<Rect>)
    ensures |r| == |vs| && forall j :: 0 <= j < |vs| ==> r[j] == vs[j].rect
  {
    seq(|vs|, j requires 0 <= j < |vs| => vs[j].rect)
  }

  /**
   * The children after a hover change that fired `f`: the entered child runs
   * its enter callback, the left one is released and runs its leave
   * callback, and every other child is as it was.
   */
  function HoverViews(vs: seq<ChildView>, f: Fired): (r: seq<ChildView>)
    requires f.entered.Some? ==> f.entered.value < |vs|
    requires f.left.Some? ==> f.left.value < |vs|
    requires f.entered.Some? && f.left.Some? ==> f.entered != f.left
    ensures |r| == |vs| && RectsOf(r) == RectsOf(vs)
    ensures forall j :: 0 <= j < |vs| && f.entered != Some(j) && f.left != Some(j) ==> r[j] == vs[j]
    ensures f.entered.Some? ==> r[f.entered.value] == vs[f.entered.value].(look := Entered(vs[f.entered.value].look, vs[f.entered.value].events))
    ensures f.left.Some? ==> r[f.left.value] == vs[f.left.value].(look := Left(vs[f.left.value].look, vs[f.left.value].events))
  {
    var a := if f.entered.Some? then vs[f.entered.value := vs[f.entered.value].(look := Entered(vs[f.entered.value].look, vs[f.entered.value].events))] else vs;
    if f.left.Some? then a[f.left.value := vs[f.left.value].(look := Left(vs[f.left.value].look, vs[f.left.value].events))] else a
  }

  /** The views after child `i` ran `mouse_down`: it is pressed and its press callback ran. */
  function PressAt(vs: seq<ChildView>, i: nat): (r: seq<ChildView>)
    requires i < |vs|
    ensures |r| == |vs| && RectsOf(r) == RectsOf(vs)
    ensures r[i].look.pressed && forall j :: 0 <= j < |vs| && j != i ==> r[j] == vs[j]
  {
    vs[i := vs[i].(look := Pressed(vs[i].look, vs[i].events))]
  }

  /** The views after child `i` ran `mouse_up`: it is released and its release callback ran. */
  function ReleaseAt(vs: seq<ChildView>, i: nat): (r: seq<ChildView>)
    requires i < |vs|
    ensures |r| == |vs| && RectsOf(r) == RectsOf(vs)
    ensures !r[i].look.pressed && forall j :: 0 <= j < |vs| && j != i ==> r[j] == vs[j]
  {
    vs[i := vs[i].(look := Released(vs[i].look, vs[i].events))]
  }

  /** Which of the four callbacks a `set_mouse_*_event` setter replaces. */
  datatype Trigger = OnEnter | OnLeave | OnPress | OnRelease

  /** `ev` with the callback for `t` replaced by `cb`. */
  function WithCallback(ev: Events, t: Trigger, cb: Callback): (r: Events)
    ensures t == OnEnter ==> r.on == cb && r.(on := ev.on) == ev
    ensures t == OnLeave ==> r.off == cb && r.(off := ev.off) == ev
    ensures t == OnPress ==> r.down == cb && r.(down := ev.down) == ev
    ensures t == OnRelease ==> r.up == cb && r.(up := ev.up) == ev
  {
    match t
    case OnEnter => ev.(on := cb)
    case OnLeave => ev.(off := cb)
    case OnPress => ev.(down := cb)
    case OnRelease => ev.(up := cb)
  }

  /**
   * The callback a setter installs is the one the matching event runs: a
   * `Paint(c)` leaves the background `c` whatever it was, a `Noop` leaves it
   * as it was.
   */
  lemma InstalledCallbackRuns(ev: Events, t: Trigger, cb: Callback, l: Look)
    ensures var e := WithCallback(ev, t, cb);
      var after := match t
        case OnEnter => Entered(l, e)
        case OnLeave => Left(l, e)
        case OnPress => Pressed(l, e)
        case OnRelease => Released(l, e);
      after.color == (if cb.Paint? then cb.color else l.color)
  {
  }

  /** An event that changes no hover fires no callback, so every child stays as it was. */
  lemma QuietHoverKeepsViews(vs: seq<ChildView>, h: Option<nat>)
    requires h.Some? ==> h.value < |vs|
    ensures HoverViews(vs, HoverFires(h, h)) == vs
  {
  }

  /**
   * A run of sibling subtrees and the footprint they share, as the frame
   * lemmas of `Object` take them; one datatype argument rather than
   * several keeps those two-state lemmas to a single parameter.
   */
  datatype Siblings = Siblings(kids: seq<Object>, repr: set<object>)

  /** The sibling at `index` among `among`. */
  datatype Sibling = Sibling(among: Siblings, index: nat)

  /**
   * Everything of a subtree but its positions, node by node: the child
   * bookkeeping, ratio and size, style, shading, event state, the contents
   * of both buffers, and the children.
   */
  datatype AttrTree = AttrNode(
    tally: (string, nat, Option<nat>, Option<nat>),
    dims: (Vec2, real, real),
    style: (Color, Border, seq<real>),
    shading: (ShaderType, bool),
    input: (Vec2, Vec2, bool, bool, seq<bool>, bool, bool, Events),
    buffers: (seq<real>, seq<real>),
    children: seq<Object>,
    kids: seq<AttrTree>)

  /**
   * What reshaping leaves of a subtree, node by node: everything but the
   * positions, the ratio and the buffers, that is the child bookkeeping,
   * the size, style, shading, event state and the children.
   */
  datatype ShapeTree = ShapeNode(
    tally: (string, nat, Option<nat>, Option<nat>),
    size: (real, real),
    style: (Color, Border, seq<real>),
    shading: (ShaderType, bool),
    input: (Vec2, Vec2, bool, bool, seq<bool>, bool, bool, Events),
    children: seq<Object>,
    kids: seq<ShapeTree>)

  /** The shape of attribute tree `a`: its ratios and buffers dropped throughout. */
  function ShapeOf(a: AttrTree): ShapeTree
    decreases a, 1
  {
    ShapeNode(a.tally, (a.dims.1, a.dims.2), a.style, a.shading, a.input, a.children, ShapesOf(a.kids))
  }

  /** The shapes of attribute trees `ts`, one by one. */
  function ShapesOf(ts: seq<AttrTree>): (r: seq<ShapeTree>)
    ensures |r| == |ts| && forall i :: 0 <= i < |ts| ==> r[i] == ShapeOf(ts[i])
    decreases ts, 0
  {
    seq(|ts|, i requires 0 <= i < |ts| => ShapeOf(ts[i]))
  }

  /**
   * What hover and button events leave of shape `s`, node by node: the
   * shape with the background colour, the pressed flag, the hover indices
   * and the cursor positions cleared.
   */
  function Masked(s: ShapeTree): ShapeTree
    decreases s, 1
  {
    ShapeNode((s.tally.0, s.tally.1, None, None), s.size, (NewColor(), s.style.1, s.style.2), s.shading,
      (Vec2(0.0, 0.0), Vec2(0.0, 0.0), s.input.2, s.input.3, s.input.4, false, s.input.6, s.input.7),
      s.children, MaskedAll(s.kids))
  }

  /** The masks of shapes `ss`, one by one. */
  function MaskedAll(ss: seq<ShapeTree>): (r: seq<ShapeTree>)
    ensures |r| == |ss| && forall i :: 0 <= i < |ss| ==> r[i] == Masked(ss[i])
    decreases ss, 0
  {
    seq(|ss|, i requires 0 <= i < |ss| => Masked(ss[i]))
  }

  /**
   * Form `f` of a subtree after `mouse_down`, the hover path read from its
   * shape `s`: the hovered child, if any, is pressed in turn and brought to
   * the front of its siblings, and so on down the path of hovered children.
   */
  function PressedForm(f: ShapeTree, s: ShapeTree): ShapeTree
    decreases s
  {
    if s.tally.2.Some? && s.tally.2.value < |s.kids| && s.tally.2.value < |f.kids| && s.tally.2.value < |f.children| then
      var i := s.tally.2.value;
      f.(children := MoveToEnd(f.children, i), kids := MoveToEnd(f.kids[i := PressedForm(f.kids[i], s.kids[i])], i))
    else
      f
  }

  /**
   * A press only reorders: the node keeps its own fields, its children
   * and the number of its subtrees, and the hovered child ends up last.
   */
  lemma PressedFormReorders(f: ShapeTree, s: ShapeTree)
    ensures var r := PressedForm(f, s);
      && r.(children := f.children, kids := f.kids) == f
      && multiset(r.children) == multiset(f.children) && |r.kids| == |f.kids|
    ensures s.tally.2.Some? && s.tally.2.value < |s.kids| && s.tally.2.value < |f.kids| && s.tally.2.value < |f.children| ==>
      PressedForm(f, s).children[|f.children| - 1] == f.children[s.tally.2.value]
  {
  }

  /** Positions `t` of a subtree of shape `s` after `mouse_down`: reordered along the same path as `PressedForm`. */
  function PressedPos(t: PosTree, s: ShapeTree): PosTree
    decreases s
  {
    if s.tally.2.Some? && s.tally.2.value < |s.kids| && s.tally.2.value < |t.kids| then
      var i := s.tally.2.value;
      t.(kids := MoveToEnd(t.kids[i := PressedPos(t.kids[i], s.kids[i])], i))
    else
      t
  }

  /** Bringing children to the front moves no one: a coherent subtree stays coherent after a press. */
  lemma {:induction false} PressedCoherent(t: PosTree, s: ShapeTree, a: Axis)
    requires Coherent(t, a)
    ensures Coherent(PressedPos(t, s), a)
    decreases s
  {
    if s.tally.2.Some? && s.tally.2.value < |s.kids| && s.tally.2.value < |t.kids| {
      var i := s.tally.2.value;
      PressedCoherent(t.kids[i], s.kids[i], a);
      var ks := t.kids[i := PressedPos(t.kids[i], s.kids[i])];
      assert forall j :: 0 <= j < |ks| ==> ks[j].base.Get(a) == t.global.Get(a) && Coherent(ks[j], a);
      var m := MoveToEnd(ks, i);
      forall j | 0 <= j < |m|
        ensures m[j].base.Get(a) == t.global.Get(a) && Coherent(m[j], a)
      {
        if j < i { } else if j < |ks| - 1 { assert m[j] == ks[j + 1]; } else { }
      }
    }
  }

  /** Masking commutes with resizing a node. */
  lemma MaskedSized(s: ShapeTree, size: (real, real))
    ensures Masked(s.(size := size)) == Masked(s).(size := size)
  {
  }

  /** Pressing reads only the hover indices and the subtrees, so two nodes that agree there are pressed alike. */
  lemma PressedAlike(p: PosTree, f: ShapeTree, s: ShapeTree, t: ShapeTree)
    requires s.tally.2 == t.tally.2 && s.kids == t.kids
    ensures PressedPos(p, s) == PressedPos(p, t) && PressedForm(f, s) == PressedForm(f, t)
  {
  }

  class Object {
    // children
    var children: seq<Object>
    var totalChildren: nat
    var onCursorChild: Option<nat>
    var prevOnCursorChild: Option<nat>

    // properties
    const id: nat
    var name: string
    var ratio: Vec2
    var width: real
    var height: real
    var localPos: Vec2
    var basePos: Vec2
    var globalPos: Vec2
    var backgroundColor: Color
    var padding: seq<real>
    var border: Border

    // vertex buffers; `hasTexture` stands for the `Option<Texture>` handle
    const verticesBorder: array<real>
    const verticesContent: array<real>
    var shaderType: ShaderType
    var hasTexture: bool

    // event state
    var cursorPos: Vec2
    var prevCursorPos: Vec2
    var hiding: bool
    var moving: bool
    var sizing: seq<bool>
    var pressed: bool
    var closed: bool
    var events: Events

    ghost var Repr: set<object>

    /**
     * The node owns its four arrays and its children, the stored hover
     * indices name children, and the children are valid subtrees in the
     * rest of the footprint.
     */
    ghost predicate Valid()
      reads this, Repr
      decreases Repr, 1
    {
      Owns() && Subtrees(children, KidsRepr())
    }

    /** The node's own part of `Valid`: its buffers, list lengths and hover indices. */
    ghost predicate Owns()
      reads this
    {
      && this in Repr
      && verticesBorder in Repr && verticesContent in Repr
      && verticesBorder.Length == BorderFloats && verticesContent.Length == ContentFloats
      && |padding| == 4 && |sizing| == 4
      && verticesBorder != verticesContent
      && (onCursorChild.Some? ==> onCursorChild.value < |children|)
      && (prevOnCursorChild.Some? ==> prevOnCursorChild.value < |children|)
    }

    /** The part of the footprint that belongs to the children. */
    ghost function KidsRepr(): set<object>
      reads this
    {
      Repr - {this, verticesBorder, verticesContent}
    }

    /** Each of `kids` is a valid subtree inside `R`, and their footprints are disjoint. */
    static ghost predicate Subtrees(kids: seq<Object>, R: set<object>)
      reads R
      decreases R, 2
    {
      && (forall i :: 0 <= i < |kids| ==> kids[i] in R && kids[i].Repr <= R && kids[i].Valid())
      && (forall i, j :: 0 <= i < j < |kids| && kids[i] in R && kids[j] in R ==> kids[i].Repr !! kids[j].Repr)
    }

    // The fields grouped by the setters that change them; a setter's
    // contract says which groups it leaves alone.

    /** The colours and the insets of the node. */
    ghost function Style(): (Color, Border, seq<real>)
      reads this
    {
      (backgroundColor, border, padding)
    }

    /** How the content area is filled. */
    ghost function Shading(): (ShaderType, bool)
      reads this
    {
      (shaderType, hasTexture)
    }

    /** Where the node is and how pixels map to clip space. */
    ghost function Place(): (Vec2, Vec2, Vec2, Vec2)
      reads this
    {
      (ratio, localPos, basePos, globalPos)
    }

    /** The event state and the callbacks. */
    ghost function Input(): (Vec2, Vec2, bool, bool, seq<bool>, bool, bool, Events)
      reads this
    {
      (cursorPos, prevCursorPos, hiding, moving, sizing, pressed, closed, events)
    }

    /** Everything that hover and button events leave alone. */
    ghost function Fixed(): (string, nat, Vec2, real, real, Vec2, Vec2, Vec2, seq<real>, Border, ShaderType, bool, bool, bool, seq<bool>, bool, Events)
      reads this
    {
      (name, totalChildren, ratio, width, height, localPos, basePos, globalPos, padding, border, shaderType, hasTexture, hiding, moving, sizing, closed, events)
    }

    /** The node's own fields that the attribute tree holds, besides its buffers. */
    ghost function Own(): ((string, nat, Option<nat>, Option<nat>), (Vec2, real, real), (Color, Border, seq<real>), (ShaderType, bool), (Vec2, Vec2, bool, bool, seq<bool>, bool, bool, Events))
      reads this
    {
      (Tally(), (ratio, width, height), Style(), Shading(), Input())
    }

    /** The hover indices. */
    ghost function Hover(): (Option<nat>, Option<nat>)
      reads this
    {
      (onCursorChild, prevOnCursorChild)
    }

    /** What hover and button events change on this node. */
    ghost function Appearance(): Look
      reads this
    {
      Look(backgroundColor, pressed)
    }

    /** What the parent sees of this node. */
    ghost function View(): ChildView
      reads this
    {
      ChildView(Appearance(), Rect(), events)
    }

    /** The views of valid subtrees `kids` inside `R`, in order. */
    static ghost function Views(kids: seq<Object>, R: set<object>): (r: seq<ChildView>)
      requires Subtrees(kids, R)
      reads R
      ensures |r| == |kids| && forall j :: 0 <= j < |kids| ==> r[j] == kids[j].View()
    {
      seq(|kids|, j requires 0 <= j < |kids| && Subtrees(kids, R) reads R => kids[j].View())
    }

    /** The name and the child bookkeeping. */
    ghost function Tally(): (string, nat, Option<nat>, Option<nat>)
      reads this
    {
      (name, totalChildren, onCursorChild, prevOnCursorChild)
    }

    /** What the vertex positions are computed from. */
    function Box(): Box
      reads this
    {
      Layout.Box(width, height, border, padding, ratio)
    }

    /** The screen rectangle a parent hit-tests against. */
    function Rect(): Rect
      reads this
    {
      HitTest.Rect(globalPos, width, height)
    }

    /** Both buffers hold the positions and colours of the node's current fields. */
    ghost predicate Drawn()
      reads this, verticesBorder, verticesContent
      requires verticesBorder.Length == BorderFloats && verticesContent.Length == ContentFloats && |padding| == 4
    {
      verticesBorder[..] == BorderMesh(Box()) && verticesContent[..] == ContentMesh(Box(), backgroundColor)
    }

    /** Both buffers hold the node's mesh as laid out for ratio `r` instead of its own. */
    ghost predicate DrawnAt(r: Vec2)
      reads this, verticesBorder, verticesContent
      requires verticesBorder.Length == BorderFloats && verticesContent.Length == ContentFloats && |padding| == 4
    {
      verticesBorder[..] == BorderMesh(Box().(ratio := r)) && verticesContent[..] == ContentMesh(Box().(ratio := r), backgroundColor)
    }

    /** Every node of the subtree is drawn. */
    ghost predicate AllDrawn()
      requires Valid()
      reads Repr
      decreases Repr, 1
    {
      Drawn() && KidsDrawn(children, KidsRepr())
    }

    /** Every one of the valid subtrees `kids` inside `R` is drawn throughout. */
    static ghost predicate KidsDrawn(kids: seq<Object>, R: set<object>)
      requires Subtrees(kids, R)
      reads R
      decreases R, 2
    {
      forall i :: 0 <= i < |kids| ==> kids[i].AllDrawn()
    }

    /** Every node of the subtree has ratio `r`. */
    ghost predicate AllAt(r: Vec2)
      requires Valid()
      reads Repr
      decreases Repr, 1
    {
      ratio == r && KidsAt(children, KidsRepr(), r)
    }

    /** Every node of the valid subtrees `kids` inside `R` has ratio `r`. */
    static ghost predicate KidsAt(kids: seq<Object>, R: set<object>, r: Vec2)
      requires Subtrees(kids, R)
      reads R
      decreases R, 2
    {
      forall i :: 0 <= i < |kids| ==> kids[i].AllAt(r)
    }

    /** The positions of the whole subtree, as a value. */
    ghost function Snapshot(): PosTree
      requires Valid()
      reads Repr
      decreases Repr, 1
    {
      Node(localPos, basePos, globalPos, Snapshots(children, KidsRepr()))
    }

    /**
     * The snapshots of valid subtrees `kids` inside `R`. The 12_gui stage has
     * the same function over its own object type (`GuiObject.Object.Snapshots`);
     * the two stages share no object type, so each defines its own.
     */
    static ghost function Snapshots(kids: seq<Object>, R: set<object>): (r: seq<PosTree>)
      requires Subtrees(kids, R)
      reads R
      ensures |r| == |kids|
      ensures forall i :: 0 <= i < |kids| ==> r[i] == kids[i].Snapshot()
      decreases R, 2
    {
      seq(|kids|, i requires 0 <= i < |kids| && Subtrees(kids, R) reads R => kids[i].Snapshot())
    }

    /** Everything but the positions of the whole subtree, as a value. */
    ghost function Attrs(): AttrTree
      requires Valid()
      reads Repr
      decreases Repr, 1
    {
      AttrNode(Tally(), (ratio, width, height), Style(), Shading(), Input(),
        (verticesBorder[..], verticesContent[..]), children, AttrsOf(children, KidsRepr()))
    }

    /** The subtree as reshaping leaves it; `ShapeOfAttrs` shows it is `Attrs()` without its ratios and buffers. */
    ghost function Shape(): ShapeTree
      requires Valid()
      reads Repr
      decreases Repr, 1
    {
      ShapeNode(Tally(), (width, height), Style(), Shading(), Input(), children, ShapesIn(children, KidsRepr()))
    }

    /** The shapes of valid subtrees `kids` inside `R`, in order. */
    static ghost function ShapesIn(kids: seq<Object>, R: set<object>): (r: seq<ShapeTree>)
      requires Subtrees(kids, R)
      reads R
      ensures |r| == |kids|
      ensures forall i :: 0 <= i < |kids| ==> r[i] == kids[i].Shape()
      decreases R, 2
    {
      seq(|kids|, i requires 0 <= i < |kids| && Subtrees(kids, R) reads R => kids[i].Shape())
    }

    /**
     * What hover and button events leave of the whole subtree: its shape
     * with the background colours, the pressed flags, the hover indices and
     * the cursor positions cleared throughout.
     */
    ghost function Form(): ShapeTree
      requires Valid()
      reads Repr
      decreases Repr, 1
    {
      ShapeNode((name, totalChildren, None, None), (width, height), (NewColor(), border, padding), Shading(),
        (Vec2(0.0, 0.0), Vec2(0.0, 0.0), hiding, moving, sizing, false, closed, events),
        children, FormsIn(children, KidsRepr()))
    }

    /** The forms of valid subtrees `kids` inside `R`, in order. */
    static ghost function FormsIn(kids: seq<Object>, R: set<object>): (r: seq<ShapeTree>)
      requires Subtrees(kids, R)
      reads R
      ensures |r| == |kids|
      ensures forall i :: 0 <= i < |kids| ==> r[i] == kids[i].Form()
      decreases R, 2
    {
      seq(|kids|, i requires 0 <= i < |kids| && Subtrees(kids, R) reads R => kids[i].Form())
    }

    /** The form of a subtree is its shape masked node by node. */
    lemma FormIsMasked()
      requires Valid()
      ensures Form() == Masked(Shape())
      decreases Repr, 1
    {
      FormsAreMasked(children, KidsRepr());
    }

    /** The forms of valid subtrees `kids` are their masked shapes. */
    static lemma FormsAreMasked(kids: seq<Object>, R: set<object>)
      requires Subtrees(kids, R)
      ensures FormsIn(kids, R) == MaskedAll(ShapesIn(kids, R))
      decreases R, 2
    {
      forall i | 0 <= i < |kids|
        ensures kids[i].Form() == Masked(kids[i].Shape())
      {
        kids[i].FormIsMasked();
      }
    }

    /** The shape of a subtree is its attribute tree with the ratios and buffers dropped. */
    lemma ShapeOfAttrs()
      requires Valid()
      ensures Shape() == ShapeOf(Attrs())
      decreases Repr
    {
      forall i | 0 <= i < |children|
        ensures children[i].Shape() == ShapeOf(children[i].Attrs())
      {
        children[i].ShapeOfAttrs();
      }
      assert ShapesIn(children, KidsRepr()) == ShapesIn(children, KidsRepr());
    }

    /** The attribute trees of valid subtrees `kids` inside `R`, as `GuiObject.Object.AttrsOf` for the 12_gui type. */
    static ghost function AttrsOf(kids: seq<Object>, R: set<object>): (r: seq<AttrTree>)
      requires Subtrees(kids, R)
      reads R
      ensures |r| == |kids|
      ensures forall i :: 0 <= i < |kids| ==> r[i] == kids[i].Attrs()
      decreases R, 2
    {
      seq(|kids|, i requires 0 <= i < |kids| && Subtrees(kids, R) reads R => kids[i].Attrs())
    }

    /**
     * When child `i` of valid subtrees `kids` has changed only inside its own
     * footprint and stayed valid, the others are untouched: all are still
     * valid subtrees and only the `i`-th snapshot may differ.
     */
    static twostate lemma OneChildChanged(s: Sibling)
      requires old(Subtrees(s.among.kids, s.among.repr)) && s.index < |s.among.kids|
      requires s.among.kids[s.index].Valid() && s.among.kids[s.index].Repr == old(s.among.kids[s.index].Repr)
      requires forall o: object :: o in s.among.repr && o !in old(s.among.kids[s.index].Repr) ==> unchanged(o)
      ensures Subtrees(s.among.kids, s.among.repr)
      ensures Snapshots(s.among.kids, s.among.repr) == old(Snapshots(s.among.kids, s.among.repr))[s.index := s.among.kids[s.index].Snapshot()]
      ensures Views(s.among.kids, s.among.repr) == old(Views(s.among.kids, s.among.repr))[s.index := s.among.kids[s.index].View()]
      ensures forall j :: 0 <= j < |s.among.kids| && j != s.index ==> unchanged(s.among.kids[j])
    {
      var kids, i := s.among.kids, s.index;
      forall j | 0 <= j < |kids| && j != i
        ensures kids[j].Repr == old(kids[j].Repr) && kids[j].Valid() && kids[j].Snapshot() == old(kids[j].Snapshot()) && unchanged(kids[j])
      {
        assert old(kids[j].Repr !! kids[i].Repr) by {
          if j < i { } else { }
        }
        assert old(kids[j].Valid()) && old(kids[j] in kids[j].Repr);
      }
    }

    /**
     * The same, for callers that need only the views: the children are
     * still valid subtrees, the others are untouched, and only the `i`-th
     * view may differ.
     */
    static twostate lemma OneChildKept(s: Sibling)
      requires old(Subtrees(s.among.kids, s.among.repr)) && s.index < |s.among.kids|
      requires s.among.kids[s.index].Valid() && s.among.kids[s.index].Repr == old(s.among.kids[s.index].Repr)
      requires forall o: object :: o in s.among.repr && o !in old(s.among.kids[s.index].Repr) ==> unchanged(o)
      ensures Subtrees(s.among.kids, s.among.repr)
      ensures Views(s.among.kids, s.among.repr) == old(Views(s.among.kids, s.among.repr))[s.index := s.among.kids[s.index].View()]
      ensures forall j :: 0 <= j < |s.among.kids| && j != s.index ==> unchanged(s.among.kids[j])
    {
      var kids, i := s.among.kids, s.index;
      forall j | 0 <= j < |kids| && j != i
        ensures kids[j].Repr == old(kids[j].Repr) && kids[j].Valid() && unchanged(kids[j])
      {
        assert old(kids[j].Repr !! kids[i].Repr) by {
          if j < i { } else { }
        }
        assert old(kids[j].Valid()) && old(kids[j] in kids[j].Repr);
      }
    }

    /**
     * A valid subtree `c` built outside the children's footprint, while
     * nothing in that footprint changed, joins the children as the last
     * of them; the node stays valid and its snapshot gains `c`'s.
     */
    twostate lemma ChildAppended(new c: Object)
      requires old(Valid()) && Owns() && Place() == old(Place())
      requires children == old(children) + [c] && KidsRepr() == old(KidsRepr()) + c.Repr
      requires forall o: object :: o in old(KidsRepr()) ==> unchanged(o)
      requires c.Valid() && c.Repr !! old(KidsRepr())
      ensures Valid()
      ensures Snapshot() == old(Snapshot()).(kids := old(Snapshot()).kids + [c.Snapshot()])
    {
      var kids := old(children);
      forall j | 0 <= j < |kids|
        ensures kids[j].Repr == old(kids[j].Repr) && kids[j].Valid() && kids[j].Snapshot() == old(kids[j].Snapshot())
      {
        assert old(kids[j].Valid());
        assert old(kids[j] in kids[j].Repr);
      }
      assert c in c.Repr;
      assert Subtrees(children, KidsRepr());
    }

    /**
     * Under the conditions of `OneChildChanged`, when child `i` kept its
     * attributes, so did all of `kids`.
     */
    static twostate lemma AttrsKept(s: Sibling)
      requires old(Subtrees(s.among.kids, s.among.repr)) && Subtrees(s.among.kids, s.among.repr) && s.index < |s.among.kids|
      requires s.among.kids[s.index].Repr == old(s.among.kids[s.index].Repr)
      requires forall o: object :: o in s.among.repr && o !in old(s.among.kids[s.index].Repr) ==> unchanged(o)
      requires s.among.kids[s.index].Attrs() == old(s.among.kids[s.index].Attrs())
      ensures AttrsOf(s.among.kids, s.among.repr) == old(AttrsOf(s.among.kids, s.among.repr))
    {
      var kids, i := s.among.kids, s.index;
      forall j | 0 <= j < |kids| && j != i
        ensures kids[j].Attrs() == old(kids[j].Attrs())
      {
        assert old(kids[j].Repr !! kids[i].Repr) by {
          if j < i { } else { }
        }
        assert old(kids[j].Valid()) && old(kids[j] in kids[j].Repr);
      }
    }

    /**
     * Under the conditions of `OneChildChanged`, with all of `kids` still
     * valid subtrees, only the `i`-th shape may differ.
     */
    static twostate lemma ShapesChanged(s: Sibling)
      requires old(Subtrees(s.among.kids, s.among.repr)) && Subtrees(s.among.kids, s.among.repr) && s.index < |s.among.kids|
      requires s.among.kids[s.index].Repr == old(s.among.kids[s.index].Repr)
      requires forall o: object :: o in s.among.repr && o !in old(s.among.kids[s.index].Repr) ==> unchanged(o)
      ensures ShapesIn(s.among.kids, s.among.repr) == old(ShapesIn(s.among.kids, s.among.repr))[s.index := s.among.kids[s.index].Shape()]
    {
      var kids, i := s.among.kids, s.index;
      forall j | 0 <= j < |kids| && j != i
        ensures kids[j].Shape() == old(kids[j].Shape())
      {
        assert old(kids[j].Repr !! kids[i].Repr) by {
          if j < i { } else { }
        }
        assert old(kids[j] in kids[j].Repr);
      }
    }

    /**
     * Under the conditions of `OneChildChanged`, with all of `kids` still
     * valid subtrees, only the `i`-th form may differ.
     */
    static twostate lemma FormsChanged(s: Sibling)
      requires old(Subtrees(s.among.kids, s.among.repr)) && Subtrees(s.among.kids, s.among.repr) && s.index < |s.among.kids|
      requires s.among.kids[s.index].Repr == old(s.among.kids[s.index].Repr)
      requires forall o: object :: o in s.among.repr && o !in old(s.among.kids[s.index].Repr) ==> unchanged(o)
      ensures FormsIn(s.among.kids, s.among.repr) == old(FormsIn(s.among.kids, s.among.repr))[s.index := s.among.kids[s.index].Form()]
    {
      var kids, i := s.among.kids, s.index;
      forall j | 0 <= j < |kids| && j != i
        ensures kids[j].Form() == old(kids[j].Form())
      {
        assert old(kids[j].Repr !! kids[i].Repr) by {
          if j < i { } else { }
        }
        assert old(kids[j] in kids[j].Repr);
      }
    }

    /** A node whose own non-position fields, buffers and children's attributes stayed keeps its attributes. */
    twostate lemma OwnAttrsKept()
      requires old(Valid()) && Valid() && children == old(children) && KidsRepr() == old(KidsRepr())
      requires Own() == old(Own())
      requires unchanged(verticesBorder, verticesContent)
      requires AttrsOf(children, KidsRepr()) == old(AttrsOf(children, KidsRepr()))
      ensures Attrs() == old(Attrs())
    {
      assert verticesBorder[..] == old(verticesBorder[..]) && verticesContent[..] == old(verticesContent[..]);
    }

    /** `OneChildChanged` for the children of this node. */
    twostate lemma ChildChanged(i: nat)
      requires old(Subtrees(children, KidsRepr())) && i < |children| && children == old(children) && KidsRepr() == old(KidsRepr())
      requires children[i].Valid() && children[i].Repr == old(children[i].Repr)
      requires forall o: object :: o in KidsRepr() && o !in old(children[i].Repr) ==> unchanged(o)
      ensures Subtrees(children, KidsRepr())
      ensures Snapshots(children, KidsRepr()) == old(Snapshots(children, KidsRepr()))[i := children[i].Snapshot()]
      ensures Views(children, KidsRepr()) == old(Views(children, KidsRepr()))[i := children[i].View()]
      ensures forall j :: 0 <= j < |children| && j != i ==> unchanged(children[j])
    {
      OneChildChanged(Sibling(Siblings(children, KidsRepr()), i));
    }

    /** `Untouched` for the children of this node. */
    twostate lemma ChildrenUntouched()
      requires old(Subtrees(children, KidsRepr())) && children == old(children) && KidsRepr() == old(KidsRepr())
      requires forall o: object :: o in KidsRepr() ==> unchanged(o)
      ensures Subtrees(children, KidsRepr())
      ensures Snapshots(children, KidsRepr()) == old(Snapshots(children, KidsRepr()))
      ensures Views(children, KidsRepr()) == old(Views(children, KidsRepr()))
    {
      Untouched(Siblings(children, KidsRepr()));
    }

    /** Valid subtrees inside an unchanged footprint stay valid subtrees with the same snapshots and views. */
    static twostate lemma Untouched(s: Siblings)
      requires old(Subtrees(s.kids, s.repr))
      requires forall o: object :: o in s.repr ==> unchanged(o)
      ensures Subtrees(s.kids, s.repr)
      ensures Snapshots(s.kids, s.repr) == old(Snapshots(s.kids, s.repr))
      ensures Views(s.kids, s.repr) == old(Views(s.kids, s.repr))
      ensures ShapesIn(s.kids, s.repr) == old(ShapesIn(s.kids, s.repr))
      ensures FormsIn(s.kids, s.repr) == old(FormsIn(s.kids, s.repr))
    {
      var kids := s.kids;
      forall j | 0 <= j < |kids|
        ensures kids[j].Repr == old(kids[j].Repr) && kids[j].Valid() && kids[j].Snapshot() == old(kids[j].Snapshot())
        ensures kids[j].View() == old(kids[j].View()) && kids[j].Shape() == old(kids[j].Shape()) && kids[j].Form() == old(kids[j].Form())
      {
        assert old(kids[j].Valid()) && old(kids[j] in kids[j].Repr);
      }
    }

    /** Moving one of valid subtrees `kids` to the end keeps them valid subtrees and moves its snapshot alike. */
    static lemma MovedSubtrees(kids: seq<Object>, R: set<object>, i: nat)
      requires Subtrees(kids, R) && i < |kids|
      ensures Subtrees(MoveToEnd(kids, i), R)
      ensures Snapshots(MoveToEnd(kids, i), R) == MoveToEnd(Snapshots(kids, R), i)
      ensures Views(MoveToEnd(kids, i), R) == MoveToEnd(Views(kids, R), i)
      ensures ShapesIn(MoveToEnd(kids, i), R) == MoveToEnd(ShapesIn(kids, R), i)
      ensures FormsIn(MoveToEnd(kids, i), R) == MoveToEnd(FormsIn(kids, R), i)
    {
      var m, n := MoveToEnd(kids, i), |kids|;
      forall a, b | 0 <= a < b < n
        ensures m[a].Repr !! m[b].Repr
      {
        var a', b' := if a < i then a else a + 1, if b == n - 1 then i else if b < i then b else b + 1;
        assert m[a] == kids[a'] && m[b] == kids[b'] && a' != b';
        if a' < b' { } else { }
      }
    }

    /** A hover index into `kids`, repaired after moving entry `i` to the end, names the same entry. */
    static lemma FixedIndexFollows(kids: seq<Object>, i: nat, h: Option<nat>)
      requires i < |kids| && (h.Some? ==> h.value < |kids|)
      ensures FixIndex(h, i, |kids|).Some? == h.Some?
      ensures h.Some? ==> FixIndex(h, i, |kids|).value < |kids| && MoveToEnd(kids, i)[FixIndex(h, i, |kids|).value] == kids[h.value]
    {
      if h.Some? {
        FixIndexFollowsEntry(kids, i, h.value);
      }
    }

    /** Sweeping the closed ones out of valid subtrees `kids` leaves valid subtrees. */
    static lemma KeptSubtrees(kids: seq<Object>, R: set<object>, closed: seq<bool>)
      requires Subtrees(kids, R) && |closed| == |kids|
      ensures Subtrees(KeepOpen(kids, closed), R)
    {
      var m := KeepOpen(kids, closed);
      forall a | 0 <= a < |m|
        ensures m[a] in R && m[a].Repr <= R && m[a].Valid()
      {
        KeepOpenOnlyOpen(kids, closed, a);
      }
      forall a, b | 0 <= a < b < |m|
        ensures m[a].Repr !! m[b].Repr
      {
        KeepOpenOnlyOpen(kids, closed, a);
        var i :| 0 <= i < |kids| && !closed[i] && Rank(closed, i) == a && m[a] == kids[i];
        KeepOpenOnlyOpen(kids, closed, b);
        var j :| 0 <= j < |kids| && !closed[j] && Rank(closed, j) == b && m[b] == kids[j];
        if i < j { } else { }
      }
    }

    /** The views of the children the sweep keeps are the kept entries of the views before it. */
    static lemma KeptViews(kids: seq<Object>, R: set<object>, closed: seq<bool>)
      requires Subtrees(kids, R) && |closed| == |kids|
      ensures Subtrees(KeepOpen(kids, closed), R)
      ensures Views(KeepOpen(kids, closed), R) == KeepOpen(Views(kids, R), closed)
    {
      KeptSubtrees(kids, R, closed);
      var m, vs := KeepOpen(kids, closed), Views(kids, R);
      forall k | 0 <= k < |m|
        ensures k < |KeepOpen(vs, closed)| && m[k].View() == KeepOpen(vs, closed)[k]
      {
        KeepOpenOnlyOpen(kids, closed, k);
        var i :| 0 <= i < |kids| && !closed[i] && Rank(closed, i) == k && m[k] == kids[i];
        KeepOpenAt(vs, closed, i);
      }
    }

    /** What the sweep keeps is not closed. */
    static lemma KeptOpen(kids: seq<Object>, closed: seq<bool>)
      requires closed == ClosedOf(kids)
      ensures forall k :: 0 <= k < |KeepOpen(kids, closed)| ==> !KeepOpen(kids, closed)[k].closed
    {
      forall k | 0 <= k < |KeepOpen(kids, closed)|
        ensures !KeepOpen(kids, closed)[k].closed
      {
        KeepOpenOnlyOpen(kids, closed, k);
      }
    }

    /** The `closed` flags of `kids`, in order. */
    static ghost function ClosedOf(kids: seq<Object>): (r: seq<bool>)
      reads kids
      ensures |r| == |kids|
    {
      seq(|kids|, j requires 0 <= j < |kids| reads kids => kids[j].closed)
    }

    /**
     * No child of the node is closed, and unless the node is hidden the same
     * holds throughout every child's subtree.
     */
    ghost predicate Swept()
      requires Valid()
      reads Repr
      decreases Repr, 1
    {
      && NoneClosed(children, KidsRepr())
      && (!hiding ==> KidsSwept(children, KidsRepr()))
    }

    static ghost predicate NoneClosed(kids: seq<Object>, R: set<object>)
      requires Subtrees(kids, R)
      reads R
    {
      forall i :: 0 <= i < |kids| ==> !kids[i].closed
    }

    static ghost predicate KidsSwept(kids: seq<Object>, R: set<object>)
      requires Subtrees(kids, R)
      reads R
      decreases R, 2
    {
      forall i :: 0 <= i < |kids| ==> kids[i].Swept()
    }

    /** Child `i` is a valid subtree in the children's part of the footprint. */
    lemma ChildValid(i: nat)
      requires Valid() && i < |children|
      ensures children[i] in KidsRepr() && children[i].Repr <= KidsRepr() && children[i].Valid()
    {
    }

    /**
     * `Object::create` (12_imgui/src/ui/object.rs:56-188): no children, zero
     * size and positions, white background, zero padding and border, both
     * meshes laid out for that box, colour-only shading, no callbacks. The
     * shader program and GPU buffers are not modelled.
     */
    constructor Create(id: nat, name: string, ratio: Vec2)
      ensures Valid() && fresh(Repr) && Drawn()
      ensures children == [] && Snapshot() == Node(Vec2(0.0, 0.0), Vec2(0.0, 0.0), Vec2(0.0, 0.0), [])
      ensures this.id == id && Tally() == (name, 0, None, None)
      ensures width == 0.0 && height == 0.0
      ensures Place() == (ratio, Vec2(0.0, 0.0), Vec2(0.0, 0.0), Vec2(0.0, 0.0))
      ensures Style() == (Color(1.0, 1.0, 1.0, 1.0), BorderNew(), [0.0, 0.0, 0.0, 0.0]) && Shading() == (ColorOnly, false)
      ensures Input() == (Vec2(0.0, 0.0), Vec2(0.0, 0.0), false, false, [false, false, false, false], false, false, Events(Noop, Noop, Noop, Noop))
    {
      var white := Color(1.0, 1.0, 1.0, 1.0);
      var box := Layout.Box(0.0, 0.0, BorderNew(), [0.0, 0.0, 0.0, 0.0], ratio);
      var vb := NewBuffer(BorderMesh(box));
      var vc := NewBuffer(ContentMesh(box, white));
      children := [];
      totalChildren := 0;
      onCursorChild := None;
      prevOnCursorChild := None;
      this.id := id;
      this.name := name;
      this.ratio := ratio;
      width := 0.0;
      height := 0.0;
      localPos := Vec2(0.0, 0.0);
      basePos := Vec2(0.0, 0.0);
      globalPos := Vec2(0.0, 0.0).Plus(Vec2(0.0, 0.0));
      backgroundColor := white;
      padding := [0.0, 0.0, 0.0, 0.0];
      border := BorderNew();
      verticesBorder := vb;
      verticesContent := vc;
      shaderType := ColorOnly;
      hasTexture := false;
      cursorPos := Vec2(0.0, 0.0);
      prevCursorPos := Vec2(0.0, 0.0);
      hiding := false;
      moving := false;
      sizing := [false, false, false, false];
      pressed := false;
      closed := false;
      events := Events(Noop, Noop, Noop, Noop);
      new;
      Repr := {this, verticesBorder, verticesContent};
    }

    /**
     * `set_size` (12_imgui/src/ui/object.rs:235-269): the given extents are
     * stored and the size-dependent slots rewritten; a node that was drawn
     * stays drawn for its new size.
     */
    method SetSize(w: Option<real>, h: Option<real>)
      requires Valid()
      modifies this, verticesBorder, verticesContent
      ensures Valid() && Repr == old(Repr) && children == old(children)
      ensures width == Pick(w, old(width)) && height == Pick(h, old(height))
      ensures Style() == old(Style()) && Shading() == old(Shading()) && Place() == old(Place()) && Input() == old(Input()) && Tally() == old(Tally())
      ensures verticesBorder[..] == SizeBorder(old(verticesBorder[..]), Box())
      ensures verticesContent[..] == SizeContent(old(verticesContent[..]), Box())
      ensures old(Drawn()) ==> Drawn()
      ensures Snapshot() == old(Snapshot()) && Shape() == old(Shape()).(size := (width, height))
    {
      ghost var b0 := Box();
      ghost var t0, a0 := Snapshots(children, KidsRepr()), ShapesIn(children, KidsRepr());
      StoreSize(Pick(w, width), Pick(h, height));
      SizeBorderMesh(b0, width, height);
      SizeContentMesh(b0, backgroundColor, width, height);
      assert Snapshots(children, KidsRepr()) == t0 && ShapesIn(children, KidsRepr()) == a0;
    }

    /**
     * `set_background_color` (12_imgui/src/ui/object.rs:270-281): the colour
     * is stored and written into the colour slots of the four content
     * vertices, and nowhere else.
     */
    method SetBackgroundColor(c: Color)
      requires Valid()
      modifies this, verticesContent
      ensures Valid() && Repr == old(Repr) && children == old(children)
      ensures backgroundColor == c && border == old(border) && padding == old(padding)
      ensures width == old(width) && height == old(height)
      ensures Shading() == old(Shading()) && Place() == old(Place()) && Input() == old(Input()) && Tally() == old(Tally())
      ensures verticesContent[..] == Painted(old(verticesContent[..]), 9, 0, 4, c)
      ensures unchanged(verticesBorder)
      ensures old(Drawn()) ==> Drawn()
    {
      ghost var bg := backgroundColor;
      backgroundColor := c;
      PaintBackground(c);
      PaintContentSpec(old(verticesContent[..]), 4, c);
      BackgroundMesh(Box(), bg, c);
    }

    /** The loop of `set_background_color`: content vertex `i` gets colour `c`, for `i` from 0 to 3. */
    method PaintBackground(c: Color)
      requires verticesContent.Length == ContentFloats
      modifies verticesContent
      ensures verticesContent[..] == PaintContent(old(verticesContent[..]), 4, c)
    {
      for i := 0 to 4
        invariant verticesContent[..] == PaintContent(old(verticesContent[..]), i, c)
      {
        verticesContent[9 * i + 3] := c.r;
        verticesContent[9 * i + 4] := c.g;
        verticesContent[9 * i + 5] := c.b;
        verticesContent[9 * i + 6] := c.a;
      }
    }

    /**
     * `set_border_size` (12_imgui/src/ui/object.rs:283-320): the given edge
     * widths are stored and the inner corners of the border and the corners
     * of the content rewritten.
     */
    method SetBorderSize(top: Option<real>, right: Option<real>, bottom: Option<real>, left: Option<real>)
      requires Valid()
      modifies this, verticesBorder, verticesContent
      ensures Valid() && Repr == old(Repr) && children == old(children)
      ensures border == BorderSetSize4v(old(border), top, right, bottom, left)
      ensures backgroundColor == old(backgroundColor) && padding == old(padding) && width == old(width) && height == old(height)
      ensures Shading() == old(Shading()) && Place() == old(Place()) && Input() == old(Input()) && Tally() == old(Tally())
      ensures verticesBorder[..] == EdgeSizeBorder(old(verticesBorder[..]), Box())
      ensures verticesContent[..] == ContentCorners(old(verticesContent[..]), Box())
      ensures old(Drawn()) ==> Drawn()
    {
      ghost var b0 := Box();
      border := BorderSetSize4v(border, top, right, bottom, left);
      WriteEdgeSlots(Box());
      WriteCornerSlots(Box());
      EdgeSizeBorderMesh(b0, border);
      CornersMesh(b0, Box(), backgroundColor);
    }

    /**
     * `set_border_color` (12_imgui/src/ui/object.rs:322-362): each edge given
     * a colour stores it and writes it into the colour slots of its four
     * border vertices (top 0-3, right 4-7, bottom 8-11, left 12-15).
     */
    method SetBorderColor(top: Option<Color>, right: Option<Color>, bottom: Option<Color>, left: Option<Color>)
      requires Valid()
      modifies this, verticesBorder
      ensures Valid() && Repr == old(Repr) && children == old(children)
      ensures border == BorderSetColor4v(old(border), top, right, bottom, left)
      ensures backgroundColor == old(backgroundColor) && padding == old(padding) && width == old(width) && height == old(height)
      ensures Shading() == old(Shading()) && Place() == old(Place()) && Input() == old(Input()) && Tally() == old(Tally())
      ensures verticesBorder[..] == PaintEdge(PaintEdge(PaintEdge(PaintEdge(old(verticesBorder[..]), 0, top), 1, right), 2, bottom), 3, left)
      ensures unchanged(verticesContent)
      ensures old(Drawn()) ==> Drawn()
    {
      ColorEdge(0, top);
      ColorEdge(1, right);
      ColorEdge(2, bottom);
      ColorEdge(3, left);
      EdgeByEdge(old(border), top, right, bottom, left);
    }

    /** One edge of `set_border_color`: edge `e` takes colour `c` when one is given. */
    method ColorEdge(e: nat, c: Option<Color>)
      requires Valid() && e < 4
      modifies this, verticesBorder
      ensures Valid() && Repr == old(Repr) && children == old(children)
      ensures border == SetEdgeColor(old(border), e, c)
      ensures backgroundColor == old(backgroundColor) && padding == old(padding) && width == old(width) && height == old(height)
      ensures Shading() == old(Shading()) && Place() == old(Place()) && Input() == old(Input()) && Tally() == old(Tally())
      ensures verticesBorder[..] == PaintEdge(old(verticesBorder[..]), e, c)
      ensures old(Drawn()) ==> Drawn()
    {
      ghost var b0 := Box();
      if c.Some? {
        border := SetEdgeColor(border, e, c);
        PaintEdgeSlots(e, c.value);
      }
      PaintEdgeMesh(b0, e, c, border);
      SameSizesContent(b0, border, backgroundColor);
    }

    /** The loop over one edge's four vertices in `set_border_color`. */
    method PaintEdgeSlots(e: nat, c: Color)
      requires verticesBorder.Length == BorderFloats && e < 4
      modifies verticesBorder
      ensures verticesBorder[..] == PaintBorder(old(verticesBorder[..]), 4 * e, 4 * e + 4, c)
    {
      for i := 4 * e to 4 * e + 4
        invariant verticesBorder[..] == PaintBorder(old(verticesBorder[..]), 4 * e, i, c)
      {
        verticesBorder[i * 7 + 3] := c.r;
        verticesBorder[i * 7 + 4] := c.g;
        verticesBorder[i * 7 + 5] := c.b;
        verticesBorder[i * 7 + 6] := c.a;
      }
    }

    /**
     * `set_padding` (12_imgui/src/ui/object.rs:364-381): the given insets are
     * stored (top, right, bottom, left) and the content corners rewritten.
     */
    method SetPadding(top: Option<real>, right: Option<real>, bottom: Option<real>, left: Option<real>)
      requires Valid()
      modifies this, verticesContent
      ensures Valid() && Repr == old(Repr) && children == old(children)
      ensures padding == [Pick(top, old(padding)[0]), Pick(right, old(padding)[1]), Pick(bottom, old(padding)[2]), Pick(left, old(padding)[3])]
      ensures backgroundColor == old(backgroundColor) && border == old(border) && width == old(width) && height == old(height)
      ensures Shading() == old(Shading()) && Place() == old(Place()) && Input() == old(Input()) && Tally() == old(Tally())
      ensures verticesContent[..] == ContentCorners(old(verticesContent[..]), Box())
      ensures unchanged(verticesBorder)
      ensures old(Drawn()) ==> Drawn()
    {
      ghost var b0 := Box();
      padding := [Pick(top, padding[0]), Pick(right, padding[1]), Pick(bottom, padding[2]), Pick(left, padding[3])];
      WriteCornerSlots(Box());
      CornersMesh(b0, Box(), backgroundColor);
      PaddingBorderMesh(b0, padding);
    }

    /** The stores of `set_size`: the new extent, and its coordinates in the vertex slots. */
    method StoreSize(w: real, h: real)
      requires verticesBorder.Length == BorderFloats && verticesContent.Length == ContentFloats && |padding| == 4
      modifies this`width, this`height, verticesBorder, verticesContent
      ensures width == w && height == h
      ensures verticesBorder[..] == SizeBorder(old(verticesBorder[..]), Box())
      ensures verticesContent[..] == SizeContent(old(verticesContent[..]), Box())
    {
      width, height := w, h;
      WriteSizeSlots(Box());
    }

    /** The slot writes of `set_size` for box `b`. */
    method WriteSizeSlots(b: Box)
      requires verticesBorder.Length == BorderFloats && verticesContent.Length == ContentFloats && |b.padding| == 4
      modifies verticesBorder, verticesContent
      ensures verticesBorder[..] == SizeBorder(old(verticesBorder[..]), b)
      ensures verticesContent[..] == SizeContent(old(verticesContent[..]), b)
    {
      verticesBorder[7] := OuterRight(b);
      verticesBorder[21] := InnerRight(b);
      verticesBorder[28] := InnerRight(b);
      verticesBorder[35] := OuterRight(b);
      verticesBorder[42] := InnerRight(b);
      verticesBorder[43] := InnerBottom(b);
      verticesBorder[49] := OuterRight(b);
      verticesBorder[50] := OuterBottom(b);
      verticesBorder[57] := InnerBottom(b);
      verticesBorder[63] := InnerRight(b);
      verticesBorder[64] := InnerBottom(b);
      verticesBorder[71] := OuterBottom(b);
      verticesBorder[77] := OuterRight(b);
      verticesBorder[78] := OuterBottom(b);
      verticesBorder[99] := OuterBottom(b);
      verticesBorder[106] := InnerBottom(b);
      verticesContent[9] := ContentRight(b);
      verticesContent[19] := ContentBottom(b);
      verticesContent[27] := ContentRight(b);
      verticesContent[28] := ContentBottom(b);
    }

    /**
     * `set_base_pos` (12_imgui/src/ui/object.rs:217-233): on each axis given,
     * the base takes the new value, the global position becomes base plus
     * local, and every child is rebased onto it, recursively. Nothing but
     * positions changes.
     */
    method SetBasePos(x: Option<real>, y: Option<real>)
      requires Valid()
      modifies Repr
      decreases Repr, 3
      ensures Valid() && Repr == old(Repr) && children == old(children)
      ensures Snapshot() == SetBase(old(Snapshot()), x, y)
      ensures Own() == old(Own())
      ensures unchanged(verticesBorder, verticesContent)
      ensures Attrs() == old(Attrs()) && Shape() == old(Shape())
    {
      ShapeOfAttrs();
      if x.Some? {
        RebaseAxis(X, x.value);
      }
      if y.Some? {
        RebaseAxis(Y, y.value);
      }
      ShapeOfAttrs();
    }

    /** One axis of `set_base_pos` (12_imgui/src/ui/object.rs:218-222, 226-230). */
    method RebaseAxis(a: Axis, v: real)
      requires Valid()
      modifies Repr
      decreases Repr, 2
      ensures Valid() && Repr == old(Repr) && children == old(children)
      ensures Snapshot() == PositionTree.Rebase(old(Snapshot()), a, v)
      ensures Own() == old(Own())
      ensures unchanged(verticesBorder, verticesContent)
      ensures Attrs() == old(Attrs())
    {
      ghost var t0 := Snapshot();
      StoreBase(a, v);
      ghost var g := v + localPos.Get(a);
      assert globalPos.Get(a) == g;
      assert Snapshots(children, KidsRepr()) == t0.kids;
      RebaseChildren(a, globalPos.Get(a));
      OwnAttrsKept();
      assert Snapshot() == Node(t0.local, t0.base.With(a, v), t0.global.With(a, g), RebaseAll(t0.kids, a, g));
    }

    /**
     * `set_local_pos` (12_imgui/src/ui/object.rs:199-215): on each axis given,
     * the local position takes the new value, the global position becomes
     * base plus local, and every child is rebased onto it, recursively.
     */
    method SetLocalPos(x: Option<real>, y: Option<real>)
      requires Valid()
      modifies Repr
      decreases Repr, 3
      ensures Valid() && Repr == old(Repr) && children == old(children)
      ensures Snapshot() == SetLocal(old(Snapshot()), x, y)
      ensures Own() == old(Own())
      ensures unchanged(verticesBorder, verticesContent)
      ensures Attrs() == old(Attrs()) && Shape() == old(Shape())
    {
      ShapeOfAttrs();
      if x.Some? {
        RelocateAxis(X, x.value);
      }
      if y.Some? {
        RelocateAxis(Y, y.value);
      }
      ShapeOfAttrs();
    }

    /** One axis of `set_local_pos` (12_imgui/src/ui/object.rs:200-204, 208-212). */
    method RelocateAxis(a: Axis, v: real)
      requires Valid()
      modifies Repr
      decreases Repr, 2
      ensures Valid() && Repr == old(Repr) && children == old(children)
      ensures Snapshot() == Relocate(old(Snapshot()), a, v)
      ensures Own() == old(Own())
      ensures unchanged(verticesBorder, verticesContent)
      ensures Attrs() == old(Attrs())
    {
      ghost var t0 := Snapshot();
      StoreLocal(a, v);
      ghost var g := t0.base.Get(a) + v;
      assert globalPos.Get(a) == g;
      assert Snapshots(children, KidsRepr()) == t0.kids;
      RebaseChildren(a, globalPos.Get(a));
      OwnAttrsKept();
      assert Snapshot() == Node(t0.local.With(a, v), t0.base, t0.global.With(a, g), RebaseAll(t0.kids, a, g));
    }

    /** The stores of one axis of `set_base_pos`: the base position, and the global position as base plus local. */
    method StoreBase(a: Axis, v: real)
      modifies this`basePos, this`globalPos
      ensures basePos == old(basePos).With(a, v)
      ensures globalPos == old(globalPos).With(a, v + localPos.Get(a))
    {
      basePos := basePos.With(a, v);
      globalPos := globalPos.With(a, basePos.Get(a) + localPos.Get(a));
    }

    /** The stores of one axis of `set_local_pos`: the local position, and the global position as base plus local. */
    method StoreLocal(a: Axis, v: real)
      modifies this`localPos, this`globalPos
      ensures localPos == old(localPos).With(a, v)
      ensures globalPos == old(globalPos).With(a, basePos.Get(a) + v)
    {
      localPos := localPos.With(a, v);
      globalPos := globalPos.With(a, basePos.Get(a) + localPos.Get(a));
    }

    /**
     * `add_child` (12_imgui/src/ui/object.rs:191-197): a new node numbered
     * by the running child count, with the parent's ratio and placed at the
     * parent's global position, is appended as the topmost child.
     */
    method AddChild(name: string) returns (child: Object)
      requires Valid()
      modifies this
      ensures Valid() && fresh(child.Repr) && Repr == old(Repr) + child.Repr
      ensures children == old(children) + [child]
      ensures child.Valid() && child.id == old(totalChildren) && child.name == name && child.ratio == ratio
      ensures child.Snapshot() == Node(Vec2(0.0, 0.0), globalPos, globalPos, [])
      ensures child.Drawn() && child.children == []
      ensures Snapshot() == old(Snapshot()).(kids := old(Snapshot()).kids + [child.Snapshot()])
      ensures totalChildren == old(totalChildren) + 1
      ensures (this.name, onCursorChild, prevOnCursorChild, Place(), width, height) == old((this.name, onCursorChild, prevOnCursorChild, Place(), width, height))
      ensures (Style(), Shading(), Input()) == old((Style(), Shading(), Input()))
      ensures unchanged(verticesBorder, verticesContent)
    {
      child := NewChild(totalChildren, name, ratio, globalPos);
      Adopt(child);
    }

    /** The appending half of `add_child`: valid subtree `c`, disjoint from this one, becomes its last child. */
    method Adopt(c: Object)
      requires Valid() && c.Valid() && c.Repr !! Repr
      modifies this`children, this`totalChildren, this`Repr
      ensures Valid() && Repr == old(Repr) + c.Repr
      ensures children == old(children) + [c] && totalChildren == old(totalChildren) + 1
      ensures Snapshot() == old(Snapshot()).(kids := old(Snapshot()).kids + [c.Snapshot()])
    {
      children, totalChildren, Repr := children + [c], totalChildren + 1, Repr + c.Repr;
      assert KidsRepr() == old(KidsRepr()) + c.Repr;
      ChildAppended(c);
    }

    /** The node `add_child` creates and places at `g` before appending it. */
    static method NewChild(id: nat, name: string, ratio: Vec2, g: Vec2) returns (child: Object)
      ensures child.Valid() && fresh(child.Repr)
      ensures child.id == id && child.name == name && child.ratio == ratio
      ensures child.Snapshot() == Node(Vec2(0.0, 0.0), g, g, [])
      ensures child.Drawn() && child.children == []
    {
      child := new Object.Create(id, name, ratio);
      child.SetBasePos(Some(g.x), Some(g.y));
    }

    /** The loop over the children in the position setters: each child is rebased onto `g` on axis `a`. */
    method RebaseChildren(a: Axis, g: real)
      requires Valid()
      modifies KidsRepr()
      decreases Repr, 1
      ensures Valid()
      ensures Snapshots(children, KidsRepr()) == RebaseAll(old(Snapshots(children, KidsRepr())), a, g)
      ensures AttrsOf(children, KidsRepr()) == old(AttrsOf(children, KidsRepr()))
      ensures unchanged(this, verticesBorder, verticesContent)
    {
      ghost var before := Snapshots(children, KidsRepr());
      var i := 0;
      while i < |children|
        invariant 0 <= i <= |children|
        invariant Valid()
        invariant forall j :: 0 <= j < |children| ==> Snapshots(children, KidsRepr())[j] == if j < i then PositionTree.Rebase(before[j], a, g) else before[j]
        invariant AttrsOf(children, KidsRepr()) == old(AttrsOf(children, KidsRepr()))
      {
        RebaseChild(i, a, g);
        i := i + 1;
      }
    }

    /** One step of that loop: child `i` is rebased onto `g` on axis `a`. */
    method RebaseChild(i: nat, a: Axis, g: real)
      requires Valid() && i < |children|
      modifies children[i].Repr
      decreases Repr, 0
      ensures Valid()
      ensures Snapshots(children, KidsRepr()) == old(Snapshots(children, KidsRepr()))[i := PositionTree.Rebase(old(Snapshots(children, KidsRepr()))[i], a, g)]
      ensures AttrsOf(children, KidsRepr()) == old(AttrsOf(children, KidsRepr()))
    {
      ChildValid(i);
      if a == X {
        children[i].SetBasePos(Some(g), None);
      } else {
        children[i].SetBasePos(None, Some(g));
      }
      ChildChanged(i);
      AttrsKept(Sibling(Siblings(children, KidsRepr()), i));
    }

    /**
     * `reshape` (12_imgui/src/ui/object.rs:383-426): the ratio-dependent slots
     * of both buffers are rewritten for the current box, then every child
     * takes the node's ratio and reshapes, recursively. Positions and all
     * other fields stay. A node whose buffers were laid out for some earlier
     * ratio `r0` (the ratio it had before its parent handed it a new one)
     * ends up drawn for its current ratio, and so does the whole subtree.
     */
    method Reshape(ghost r0: Vec2)
      requires Valid()
      modifies Repr
      decreases Repr, 2
      ensures Valid() && Repr == old(Repr) && children == old(children)
      ensures Place() == old(Place()) && width == old(width) && height == old(height)
      ensures Style() == old(Style()) && Shading() == old(Shading()) && Input() == old(Input()) && Tally() == old(Tally())
      ensures Snapshot() == old(Snapshot())
      ensures verticesBorder[..] == ReshapeBorder(old(verticesBorder[..]), Box())
      ensures verticesContent[..] == ContentCorners(old(verticesContent[..]), Box())
      ensures AllAt(ratio)
      ensures old(DrawnAt(r0)) ==> Drawn()
      ensures old(DrawnAt(r0) && KidsDrawn(children, KidsRepr())) ==> AllDrawn()
      ensures Shape() == old(Shape())
    {
      ghost var a0 := ShapesIn(children, KidsRepr());
      Relayout(r0);
      assert ShapesIn(children, KidsRepr()) == a0;
      ReshapeChildren();
    }

    /**
     * What every parent does to each child when it reshapes (12_imgui/src/ui/object.rs:422-425),
     * and the window and the manager to each of theirs: the node takes
     * ratio `r` and reshapes. Only the ratios and the buffers of the subtree
     * change: positions, sizes, styles and event state stay throughout.
     */
    method Rescale(r: Vec2)
      requires Valid()
      modifies Repr
      decreases Repr, 3
      ensures Valid() && Repr == old(Repr) && ratio == r
      ensures (localPos, basePos, globalPos, width, height) == old((localPos, basePos, globalPos, width, height)) && View() == old(View())
      ensures Snapshot() == old(Snapshot()) && Shape() == old(Shape())
      ensures AllAt(r)
    {
      ghost var r0 := ratio;
      ghost var t0, a0 := Snapshots(children, KidsRepr()), ShapesIn(children, KidsRepr());
      ratio := r;
      assert Snapshots(children, KidsRepr()) == t0 && ShapesIn(children, KidsRepr()) == a0;
      Reshape(r0);
    }

    /** The slot writes of `reshape` on the node's own buffers. */
    method Relayout(ghost r0: Vec2)
      requires Valid()
      modifies verticesBorder, verticesContent
      ensures verticesBorder[..] == ReshapeBorder(old(verticesBorder[..]), Box())
      ensures verticesContent[..] == ContentCorners(old(verticesContent[..]), Box())
      ensures old(DrawnAt(r0)) ==> Drawn()
    {
      ghost var b0 := Box().(ratio := r0);
      WriteReshapeSlots(Box());
      WriteCornerSlots(Box());
      ReshapeBorderMesh(b0, Box());
      CornersMesh(b0, Box(), backgroundColor);
    }

    /** The loop over the children in `reshape`. */
    method ReshapeChildren()
      requires Valid()
      modifies KidsRepr()
      decreases Repr, 1
      ensures Valid()
      ensures Snapshots(children, KidsRepr()) == old(Snapshots(children, KidsRepr()))
      ensures KidsAt(children, KidsRepr(), ratio)
      ensures old(KidsDrawn(children, KidsRepr())) ==> KidsDrawn(children, KidsRepr())
      ensures ShapesIn(children, KidsRepr()) == old(ShapesIn(children, KidsRepr()))
    {
      ghost var drawn := KidsDrawn(children, KidsRepr());
      var i := 0;
      while i < |children|
        invariant 0 <= i <= |children|
        invariant Valid()
        invariant Snapshots(children, KidsRepr()) == old(Snapshots(children, KidsRepr()))
        invariant ShapesIn(children, KidsRepr()) == old(ShapesIn(children, KidsRepr()))
        invariant forall j :: 0 <= j < i ==> children[j].Valid() && children[j].AllAt(ratio)
        invariant drawn ==> forall j :: 0 <= j < |children| ==> children[j].Valid() && children[j].AllDrawn()
      {
        ReshapeChild(i);
        i := i + 1;
      }
    }

    /** One step of that loop: child `i` takes the node's ratio and reshapes. */
    method ReshapeChild(i: nat)
      requires Valid() && i < |children|
      modifies children[i].Repr
      decreases Repr, 0
      ensures Valid()
      ensures Snapshots(children, KidsRepr()) == old(Snapshots(children, KidsRepr()))
      ensures children[i].AllAt(ratio)
      ensures old(children[i].AllDrawn()) ==> children[i].AllDrawn()
      ensures forall j :: 0 <= j < |children| && j != i ==> (children[j].AllDrawn() <==> old(children[j].AllDrawn()))
      ensures forall j :: 0 <= j < |children| && j != i ==> (children[j].AllAt(ratio) <==> old(children[j].AllAt(ratio)))
      ensures ShapesIn(children, KidsRepr()) == old(ShapesIn(children, KidsRepr()))
    {
      ChildValid(i);
      var child := children[i];
      ghost var r0 := child.ratio;
      ghost var s0, a0 := child.Shape(), ShapesIn(child.children, child.KidsRepr());
      child.ratio := ratio;
      assert ShapesIn(child.children, child.KidsRepr()) == a0;
      assert child.Shape() == s0;
      child.Reshape(r0);
      ChildChanged(i);
      ShapesChanged(Sibling(Siblings(children, KidsRepr()), i));
      forall j | 0 <= j < |children| && j != i
        ensures (children[j].AllDrawn() <==> old(children[j].AllDrawn())) && (children[j].AllAt(ratio) <==> old(children[j].AllAt(ratio)))
      {
        assert old(children[j].Repr !! children[i].Repr) by {
          if j < i { } else { }
        }
      }
    }

    /**
     * `bring_to_front` (12_imgui/src/ui/object.rs:589-611): on a non-empty
     * list, child `index` moves to the end, the top of the drawing order, and
     * both stored hover indices are repaired so that they still name the
     * child they named before. An empty list is left alone.
     */
    method BringToFront(index: nat)
      requires Valid()
      requires 0 < |children| ==> index < |children|
      modifies this
      ensures Valid() && Repr == old(Repr)
      ensures old(onCursorChild).Some? ==> onCursorChild.Some? && children[onCursorChild.value] == old(children)[old(onCursorChild).value]
      ensures old(prevOnCursorChild).Some? ==> prevOnCursorChild.Some? && children[prevOnCursorChild.value] == old(children)[old(prevOnCursorChild).value]
      ensures onCursorChild.None? == old(onCursorChild).None? && prevOnCursorChild.None? == old(prevOnCursorChild).None?
      ensures 0 < |old(children)| ==> children == MoveToEnd(old(children), index)
      ensures 0 < |old(children)| ==> Snapshot() == old(Snapshot()).(kids := MoveToEnd(old(Snapshot()).kids, index))
      ensures 0 < |old(children)| ==> Views(children, KidsRepr()) == MoveToEnd(old(Views(children, KidsRepr())), index)
      ensures 0 < |old(children)| ==> onCursorChild == FixIndex(old(onCursorChild), index, |old(children)|)
      ensures 0 < |old(children)| ==> prevOnCursorChild == FixIndex(old(prevOnCursorChild), index, |old(children)|)
      ensures |old(children)| == 0 ==> Tally() == old(Tally())
      ensures (Fixed(), Appearance(), cursorPos, prevCursorPos) == old((Fixed(), Appearance(), cursorPos, prevCursorPos))
    {
      if 0 < |children| {
        FixedIndexFollows(children, index, prevOnCursorChild);
        FixedIndexFollows(children, index, onCursorChild);
        MoveChild(index);
      }
    }

    /** The non-empty case of `bring_to_front`. */
    method MoveChild(index: nat)
      requires Valid() && index < |children|
      modifies this
      ensures Valid() && Repr == old(Repr)
      ensures children == MoveToEnd(old(children), index)
      ensures Snapshots(children, KidsRepr()) == MoveToEnd(old(Snapshots(children, KidsRepr())), index)
      ensures Views(children, KidsRepr()) == MoveToEnd(old(Views(children, KidsRepr())), index)
      ensures ShapesIn(children, KidsRepr()) == MoveToEnd(old(ShapesIn(children, KidsRepr())), index)
      ensures FormsIn(children, KidsRepr()) == MoveToEnd(old(FormsIn(children, KidsRepr())), index)
      ensures onCursorChild == FixIndex(old(onCursorChild), index, |children|)
      ensures prevOnCursorChild == FixIndex(old(prevOnCursorChild), index, |children|)
      ensures (Fixed(), Appearance(), cursorPos, prevCursorPos) == old((Fixed(), Appearance(), cursorPos, prevCursorPos))
    {
      MovedSubtrees(children, KidsRepr(), index);
      Reorder(index);
      Untouched(Siblings(children, KidsRepr()));
      assert Owns();
    }

    /** The assignments of `MoveChild`: the child list and the hover indices alone change. */
    method Reorder(index: nat)
      requires index < |children|
      modifies this
      ensures children == MoveToEnd(old(children), index)
      ensures onCursorChild == FixIndex(old(onCursorChild), index, |children|)
      ensures prevOnCursorChild == FixIndex(old(prevOnCursorChild), index, |children|)
      ensures (Repr, Fixed(), Appearance(), cursorPos, prevCursorPos) == old((Repr, Fixed(), Appearance(), cursorPos, prevCursorPos))
    {
      children, prevOnCursorChild, onCursorChild := MoveToEnd(children, index), FixIndex(prevOnCursorChild, index, |children|), FixIndex(onCursorChild, index, |children|);
    }

    /**
     * The bookkeeping half of `render` (12_imgui/src/ui/object.rs:428-437,
     * 469-471): the children marked closed are dropped, the others kept in
     * order, the hover indices follow their children (or are cleared when
     * their child was dropped), and unless the node is hidden every child
     * renders in turn. This is the sweep the program evidently intends; see
     * `ChildList.SweepAsWritten` for the one it performs.
     */
    method Render()
      requires Valid()
      modifies Repr
      decreases Repr, 2
      ensures Valid() && Repr == old(Repr)
      ensures children == KeepOpen(old(children), old(ClosedOf(children)))
      ensures onCursorChild == RemapIndex(old(ClosedOf(children)), old(onCursorChild))
      ensures prevOnCursorChild == RemapIndex(old(ClosedOf(children)), old(prevOnCursorChild))
      ensures Swept()
      ensures Views(children, KidsRepr()) == KeepOpen(old(Views(children, KidsRepr())), old(ClosedOf(children)))
      ensures name == old(name) && totalChildren == old(totalChildren)
      ensures Place() == old(Place()) && width == old(width) && height == old(height)
      ensures Style() == old(Style()) && Shading() == old(Shading()) && Input() == old(Input())
      ensures unchanged(verticesBorder, verticesContent)
    {
      SweepClosed();
      if hiding {
        return;
      }
      RenderChildren();
    }

    /** The sweep of `render`: the closed children are dropped and the hover indices follow. */
    method SweepClosed()
      requires Valid()
      modifies this`children, this`onCursorChild, this`prevOnCursorChild
      ensures Valid() && Repr == old(Repr)
      ensures children == KeepOpen(old(children), old(ClosedOf(children)))
      ensures onCursorChild == RemapIndex(old(ClosedOf(children)), old(onCursorChild))
      ensures prevOnCursorChild == RemapIndex(old(ClosedOf(children)), old(prevOnCursorChild))
      ensures forall i :: 0 <= i < |children| ==> !children[i].closed
      ensures Views(children, KidsRepr()) == KeepOpen(old(Views(children, KidsRepr())), old(ClosedOf(children)))
    {
      var closed := CollectClosed();
      KeptViews(children, KidsRepr(), closed);
      KeptOpen(children, closed);
      children, onCursorChild, prevOnCursorChild := KeepOpen(children, closed), RemapIndex(closed, onCursorChild), RemapIndex(closed, prevOnCursorChild);
      Untouched(Siblings(children, KidsRepr()));
      assert Owns();
    }

    /** The first loop of `render`: which children are closed. */
    method CollectClosed() returns (closed: seq<bool>)
      ensures closed == ClosedOf(children)
    {
      closed := [];
      for i := 0 to |children|
        invariant closed == ClosedOf(children[..i])
      {
        closed := closed + [children[i].closed];
      }
      assert children[..|children|] == children;
    }

    /** The last loop of `render`: every child renders in turn. */
    method RenderChildren()
      requires Valid()
      requires forall i :: 0 <= i < |children| ==> !children[i].closed
      modifies KidsRepr()
      decreases Repr, 1
      ensures Valid()
      ensures KidsSwept(children, KidsRepr())
      ensures forall i :: 0 <= i < |children| ==> !children[i].closed
      ensures Views(children, KidsRepr()) == old(Views(children, KidsRepr()))
    {
      for i := 0 to |children|
        invariant Valid()
        invariant forall j :: 0 <= j < |children| ==> !children[j].closed
        invariant Views(children, KidsRepr()) == old(Views(children, KidsRepr()))
        invariant forall j :: 0 <= j < i ==> children[j].Valid() && children[j].Swept()
      {
        RenderChild(i);
      }
    }

    /** One step of that loop. */
    method RenderChild(i: nat)
      requires Valid() && i < |children|
      modifies children[i].Repr
      decreases Repr, 0
      ensures Valid() && children == old(children)
      ensures children[i].Valid() && children[i].Swept()
      ensures forall j :: 0 <= j < |children| ==> children[j].closed == old(children[j].closed)
      ensures forall j :: 0 <= j < |children| && j != i ==> children[j].Valid() && old(children[j].Valid()) && (children[j].Swept() <==> old(children[j].Swept()))
      ensures Views(children, KidsRepr()) == old(Views(children, KidsRepr()))
    {
      ChildValid(i);
      children[i].Render();
      ChildChanged(i);
      assert children[i].View() == old(children[i].View());
      forall j | 0 <= j < |children| && j != i
        ensures children[j].closed == old(children[j].closed) && (children[j].Swept() <==> old(children[j].Swept()))
      {
        assert old(children[j].Repr !! children[i].Repr) by {
          if j < i { } else { }
        }
        assert children[j] in old(children[j].Repr);
      }
    }

    /**
     * `on_cursor_pos_event` (12_imgui/src/ui/object.rs:474-493): the cursor
     * is stored; the children are scanned from the top for the first whose
     * half-open rectangle holds it, and that child gets the event; when the
     * hovered child differs from the one recorded by the previous event, the
     * new one runs its enter callback and the old one is released and runs
     * its leave callback; finally the hovered child is recorded.
     */
    method OnCursorPosEvent(p: Vec2)
      requires Valid()
      modifies Repr
      decreases Repr, 3
      ensures Valid() && Repr == old(Repr) && children == old(children)
      ensures onCursorChild == Topmost(RectsOf(old(Views(children, KidsRepr()))), p, false)
      ensures (prevOnCursorChild, cursorPos, prevCursorPos) == (onCursorChild, p, p)
      ensures Views(children, KidsRepr()) == HoverViews(old(Views(children, KidsRepr())), HoverFires(old(prevOnCursorChild), onCursorChild))
      ensures (Snapshot(), Appearance(), Fixed()) == old((Snapshot(), Appearance(), Fixed()))
      ensures Form() == old(Form())
    {
      var hit := ScanHit(p);
      CursorChildren(hit, prevOnCursorChild, p);
      RecordHover(hit, p);
    }

    /** The hovered child `hit` and the cursor `p` are recorded as both the current and the previous ones. */
    method RecordHover(hit: Option<nat>, p: Vec2)
      requires Valid() && (hit.Some? ==> hit.value < |children|)
      modifies this
      ensures Valid() && Repr == old(Repr) && children == old(children)
      ensures (onCursorChild, prevOnCursorChild, cursorPos, prevCursorPos) == (hit, hit, p, p)
      ensures Views(children, KidsRepr()) == old(Views(children, KidsRepr()))
      ensures (Snapshot(), Appearance(), Fixed()) == old((Snapshot(), Appearance(), Fixed()))
      ensures Form() == old(Form())
    {
      Record(hit, p);
      ChildrenUntouched();
    }

    /** The assignments of `RecordHover`: the hover indices and the cursor alone change. */
    method Record(hit: Option<nat>, p: Vec2)
      modifies this
      ensures (onCursorChild, prevOnCursorChild, cursorPos, prevCursorPos) == (hit, hit, p, p)
      ensures (Repr, children, Fixed(), Appearance()) == old((Repr, children, Fixed(), Appearance()))
    {
      cursorPos, onCursorChild, prevOnCursorChild, prevCursorPos := p, hit, hit, p;
    }

    /**
     * The child side of `on_cursor_pos_event`: the hovered child `hit` gets
     * the event, then, when it differs from `prev`, it is entered and `prev`
     * is left.
     */
    method CursorChildren(hit: Option<nat>, prev: Option<nat>, p: Vec2)
      requires Valid() && (hit.Some? ==> hit.value < |children|) && (prev.Some? ==> prev.value < |children|)
      modifies KidsRepr()
      decreases Repr, 2
      ensures Valid()
      ensures Snapshots(children, KidsRepr()) == old(Snapshots(children, KidsRepr()))
      ensures Views(children, KidsRepr()) == HoverViews(old(Views(children, KidsRepr())), HoverFires(prev, hit))
      ensures Snapshot() == old(Snapshot()) && FormsIn(children, KidsRepr()) == old(FormsIn(children, KidsRepr()))
    {
      if hit.Some? {
        ChildValid(hit.value);
        CursorChild(hit.value, p);
      }
      if hit != prev {
        if hit.Some? {
          ChildValid(hit.value);
          OnChild(hit.value);
        }
        if prev.Some? {
          OffChild(prev.value);
        }
      }
    }

    /** The reverse scan of `on_cursor_pos_event`: the topmost child whose rectangle holds `p`. */
    method ScanHit(p: Vec2) returns (hit: Option<nat>)
      requires Valid()
      ensures hit == Topmost(RectsOf(Views(children, KidsRepr())), p, false)
    {
      var i := |children|;
      while i > 0
        invariant 0 <= i <= |children|
        invariant Topmost(RectsOf(Views(children, KidsRepr())), p, false) == TopmostBelow(RectsOf(Views(children, KidsRepr())), p, false, i)
      {
        i := i - 1;
        if InHalfOpen(children[i].Rect(), p) {
          return Some(i);
        }
      }
      return None;
    }

    /** The hovered child `i` gets the cursor event. */
    method CursorChild(i: nat, p: Vec2)
      requires Valid() && i < |children|
      modifies children[i].Repr
      decreases Repr, 1
      ensures Valid() && children == old(children)
      ensures Snapshots(children, KidsRepr()) == old(Snapshots(children, KidsRepr()))
      ensures Views(children, KidsRepr()) == old(Views(children, KidsRepr()))
      ensures FormsIn(children, KidsRepr()) == old(FormsIn(children, KidsRepr()))
    {
      ChildValid(i);
      children[i].OnCursorPosEvent(p);
      ChildChanged(i);
      FormsChanged(Sibling(Siblings(children, KidsRepr()), i));
    }

    /** Child `i` runs `mouse_on`. */
    method OnChild(i: nat)
      requires Valid() && i < |children|
      modifies children[i], children[i].verticesContent
      ensures Valid() && children == old(children)
      ensures Snapshots(children, KidsRepr()) == old(Snapshots(children, KidsRepr()))
      ensures Views(children, KidsRepr()) == old(Views(children, KidsRepr()))[i := old(Views(children, KidsRepr()))[i].(look := Entered(old(Views(children, KidsRepr()))[i].look, old(Views(children, KidsRepr()))[i].events))]
      ensures FormsIn(children, KidsRepr()) == old(FormsIn(children, KidsRepr()))
    {
      ChildValid(i);
      children[i].MouseOn();
      ChildChanged(i);
      FormsChanged(Sibling(Siblings(children, KidsRepr()), i));
    }

    /** Child `i` runs `mouse_off`. */
    method OffChild(i: nat)
      requires Valid() && i < |children|
      modifies children[i].Repr
      decreases Repr, 0
      ensures Valid() && children == old(children)
      ensures Snapshots(children, KidsRepr()) == old(Snapshots(children, KidsRepr()))
      ensures Views(children, KidsRepr()) == old(Views(children, KidsRepr()))[i := old(Views(children, KidsRepr()))[i].(look := Left(old(Views(children, KidsRepr()))[i].look, old(Views(children, KidsRepr()))[i].events))]
      ensures FormsIn(children, KidsRepr()) == old(FormsIn(children, KidsRepr()))
    {
      ChildValid(i);
      children[i].MouseOff();
      ChildChanged(i);
      FormsChanged(Sibling(Siblings(children, KidsRepr()), i));
    }

    /** Runs callback `cb` on this node: `Paint` sets the background colour. */
    method Fire(cb: Callback)
      requires Valid()
      modifies this, verticesContent
      ensures Valid() && Repr == old(Repr) && children == old(children)
      ensures backgroundColor == AfterCallback(cb, old(backgroundColor)) && pressed == old(pressed)
      ensures Fixed() == old(Fixed()) && Hover() == old(Hover()) && cursorPos == old(cursorPos) && prevCursorPos == old(prevCursorPos)
      ensures Snapshot() == old(Snapshot()) && Views(children, KidsRepr()) == old(Views(children, KidsRepr()))
      ensures Form() == old(Form())
      ensures unchanged(verticesBorder)
      ensures old(Drawn()) ==> Drawn()
    {
      if cb.Paint? {
        SetBackgroundColor(cb.color);
      }
      ChildrenUntouched();
    }

    /** `mouse_on` (12_imgui/src/ui/object.rs:495-498): the enter callback runs. */
    method MouseOn()
      requires Valid()
      modifies this, verticesContent
      ensures Valid() && Repr == old(Repr) && children == old(children)
      ensures Appearance() == Entered(old(Appearance()), events)
      ensures Fixed() == old(Fixed()) && Hover() == old(Hover()) && cursorPos == old(cursorPos) && prevCursorPos == old(prevCursorPos)
      ensures Snapshot() == old(Snapshot()) && Form() == old(Form())
      ensures unchanged(verticesBorder)
      ensures old(Drawn()) ==> Drawn()
    {
      Fire(events.on);
    }

    /**
     * `mouse_off` (12_imgui/src/ui/object.rs:500-508): the node is released;
     * if a child was hovered at the previous event it is released in turn,
     * recursively, and the hovered index is cleared (the previous one is
     * kept); then the leave callback runs.
     */
    method MouseOff()
      requires Valid()
      modifies Repr
      decreases Repr, 2
      ensures Valid() && Repr == old(Repr) && children == old(children)
      ensures Appearance() == Left(old(Appearance()), events)
      ensures onCursorChild == (if old(prevOnCursorChild).Some? then None else old(onCursorChild))
      ensures prevOnCursorChild == old(prevOnCursorChild)
      ensures Views(children, KidsRepr()) == HoverViews(old(Views(children, KidsRepr())), Fired(None, old(prevOnCursorChild)))
      ensures Snapshot() == old(Snapshot()) && Form() == old(Form())
      ensures Fixed() == old(Fixed()) && cursorPos == old(cursorPos) && prevCursorPos == old(prevCursorPos)
    {
      Unpress();
      ReleaseHovered();
      Fire(events.off);
    }

    /** The node is released; nothing else of the subtree changes. */
    method Unpress()
      requires Valid()
      modifies this`pressed
      ensures Valid() && !pressed
      ensures Snapshot() == old(Snapshot()) && Form() == old(Form())
      ensures Views(children, KidsRepr()) == old(Views(children, KidsRepr()))
    {
      pressed := false;
      ChildrenUntouched();
    }

    /** The middle of `mouse_off`: the child hovered at the previous event is released and the hovered index cleared. */
    method ReleaseHovered()
      requires Valid()
      modifies Repr
      decreases Repr, 1
      ensures Valid() && Repr == old(Repr) && children == old(children)
      ensures onCursorChild == (if old(prevOnCursorChild).Some? then None else old(onCursorChild))
      ensures prevOnCursorChild == old(prevOnCursorChild)
      ensures Views(children, KidsRepr()) == HoverViews(old(Views(children, KidsRepr())), Fired(None, old(prevOnCursorChild)))
      ensures Snapshot() == old(Snapshot()) && FormsIn(children, KidsRepr()) == old(FormsIn(children, KidsRepr()))
      ensures Appearance() == old(Appearance()) && Fixed() == old(Fixed()) && cursorPos == old(cursorPos) && prevCursorPos == old(prevCursorPos)
      ensures unchanged(verticesBorder, verticesContent)
    {
      if prevOnCursorChild.Some? {
        OffChild(prevOnCursorChild.value);
        onCursorChild := None;
      }
    }

    /**
     * `mouse_down` (12_imgui/src/ui/object.rs:510-518): the node is pressed;
     * the hovered child, if any, is pressed in turn, recursively, and brought
     * to the front, its hover indices following it; then the press callback
     * runs.
     */
    method MouseDown()
      requires Valid()
      modifies Repr
      decreases Repr, 3
      ensures Valid() && Repr == old(Repr)
      ensures Appearance() == Pressed(old(Appearance()), events)
      ensures old(onCursorChild).None? ==> children == old(children) && Hover() == old(Hover()) && Views(children, KidsRepr()) == old(Views(children, KidsRepr()))
      ensures old(onCursorChild).Some? ==>
        && children == MoveToEnd(old(children), old(onCursorChild).value)
        && onCursorChild == Some(|children| - 1)
        && prevOnCursorChild == FixIndex(old(prevOnCursorChild), old(onCursorChild).value, |children|)
        && Views(children, KidsRepr()) == MoveToEnd(PressAt(old(Views(children, KidsRepr())), old(onCursorChild).value), old(onCursorChild).value)
      ensures Fixed() == old(Fixed()) && cursorPos == old(cursorPos) && prevCursorPos == old(prevCursorPos)
      ensures Snapshot() == PressedPos(old(Snapshot()), old(Shape())) && Form() == PressedForm(old(Form()), old(Shape()))
    {
      ghost var s := Shape();
      pressed := true;
      ChildrenUntouched();
      assert Valid();
      PressedAlike(Snapshot(), Form(), s, Shape());
      PressHovered();
      ghost var h := Hover();
      Fire(events.down);
      assert Hover() == h;
    }

    /** The middle of `mouse_down`: the hovered child is pressed and brought to the front. */
    method PressHovered()
      requires Valid()
      modifies Repr
      decreases Repr, 2
      ensures Valid() && Repr == old(Repr)
      ensures old(onCursorChild).None? ==> children == old(children) && Hover() == old(Hover()) && Views(children, KidsRepr()) == old(Views(children, KidsRepr()))
      ensures old(onCursorChild).Some? ==>
        && children == MoveToEnd(old(children), old(onCursorChild).value)
        && onCursorChild == Some(|children| - 1)
        && prevOnCursorChild == FixIndex(old(prevOnCursorChild), old(onCursorChild).value, |children|)
        && Views(children, KidsRepr()) == MoveToEnd(PressAt(old(Views(children, KidsRepr())), old(onCursorChild).value), old(onCursorChild).value)
      ensures (Fixed(), Appearance(), cursorPos, prevCursorPos) == old((Fixed(), Appearance(), cursorPos, prevCursorPos))
      ensures Snapshot() == PressedPos(old(Snapshot()), old(Shape())) && Form() == PressedForm(old(Form()), old(Shape()))
      ensures unchanged(verticesBorder, verticesContent)
    {
      if onCursorChild.Some? {
        PressChild(onCursorChild.value);
      }
    }

    /** The hovered child `i` is pressed and brought to the front. */
    method PressChild(i: nat)
      requires Valid() && onCursorChild == Some(i)
      modifies Repr
      decreases Repr, 1
      ensures Valid() && Repr == old(Repr)
      ensures children == MoveToEnd(old(children), i)
      ensures onCursorChild == Some(|children| - 1)
      ensures prevOnCursorChild == FixIndex(old(prevOnCursorChild), i, |children|)
      ensures Views(children, KidsRepr()) == MoveToEnd(PressAt(old(Views(children, KidsRepr())), i), i)
      ensures Snapshots(children, KidsRepr()) == MoveToEnd(old(Snapshots(children, KidsRepr()))[i := PressedPos(old(children[i].Snapshot()), old(children[i].Shape()))], i)
      ensures FormsIn(children, KidsRepr()) == MoveToEnd(old(FormsIn(children, KidsRepr()))[i := PressedForm(old(children[i].Form()), old(children[i].Shape()))], i)
      ensures (Fixed(), Appearance(), cursorPos, prevCursorPos) == old((Fixed(), Appearance(), cursorPos, prevCursorPos))
      ensures unchanged(verticesBorder, verticesContent)
    {
      DownChild(i);
      MoveChild(i);
    }

    /** Child `i` runs `mouse_down`. */
    method DownChild(i: nat)
      requires Valid() && i < |children|
      modifies children[i].Repr
      decreases Repr, 0
      ensures Valid() && children == old(children)
      ensures Views(children, KidsRepr()) == PressAt(old(Views(children, KidsRepr())), i)
      ensures Snapshots(children, KidsRepr()) == old(Snapshots(children, KidsRepr()))[i := PressedPos(old(children[i].Snapshot()), old(children[i].Shape()))]
      ensures FormsIn(children, KidsRepr()) == old(FormsIn(children, KidsRepr()))[i := PressedForm(old(children[i].Form()), old(children[i].Shape()))]
    {
      ChildValid(i);
      children[i].MouseDown();
      ChildChanged(i);
      FormsChanged(Sibling(Siblings(children, KidsRepr()), i));
    }

    /**
     * `mouse_up` (12_imgui/src/ui/object.rs:520-527): the node is released;
     * the hovered child, if any, is released in turn, recursively; then the
     * release callback runs.
     */
    method MouseUp()
      requires Valid()
      modifies Repr
      decreases Repr, 2
      ensures Valid() && Repr == old(Repr) && children == old(children)
      ensures Appearance() == Released(old(Appearance()), events)
      ensures Views(children, KidsRepr()) == if old(onCursorChild).Some? then ReleaseAt(old(Views(children, KidsRepr())), old(onCursorChild).value) else old(Views(children, KidsRepr()))
      ensures Snapshot() == old(Snapshot()) && Form() == old(Form())
      ensures Fixed() == old(Fixed()) && Hover() == old(Hover()) && cursorPos == old(cursorPos) && prevCursorPos == old(prevCursorPos)
    {
      pressed := false;
      ReleaseHoveredUp();
      Fire(events.up);
    }

    /** The middle of `mouse_up`: the hovered child, if any, is released. */
    method ReleaseHoveredUp()
      requires Valid()
      modifies KidsRepr()
      decreases Repr, 1
      ensures Valid()
      ensures Snapshots(children, KidsRepr()) == old(Snapshots(children, KidsRepr()))
      ensures Views(children, KidsRepr()) == if onCursorChild.Some? then ReleaseAt(old(Views(children, KidsRepr())), onCursorChild.value) else old(Views(children, KidsRepr()))
      ensures FormsIn(children, KidsRepr()) == old(FormsIn(children, KidsRepr()))
    {
      if onCursorChild.Some? {
        ChildValid(onCursorChild.value);
        UpChild(onCursorChild.value);
      }
    }

    /** Child `i` runs `mouse_up`. */
    method UpChild(i: nat)
      requires Valid() && i < |children|
      modifies children[i].Repr
      decreases Repr, 0
      ensures Valid() && children == old(children)
      ensures Snapshots(children, KidsRepr()) == old(Snapshots(children, KidsRepr()))
      ensures Views(children, KidsRepr()) == ReleaseAt(old(Views(children, KidsRepr())), i)
      ensures FormsIn(children, KidsRepr()) == old(FormsIn(children, KidsRepr()))
    {
      ChildValid(i);
      children[i].MouseUp();
      ChildChanged(i);
      FormsChanged(Sibling(Siblings(children, KidsRepr()), i));
    }

    /**
     * `set_mouse_on_event`, `set_mouse_off_event`, `set_mouse_down_event`
     * and `set_mouse_up_event` (12_imgui/src/ui/object.rs:529-548): the
     * callback for `t` is replaced; nothing else changes.
     */
    method SetMouseEvent(t: Trigger, cb: Callback)
      requires Valid()
      modifies this
      ensures Valid() && Repr == old(Repr) && children == old(children)
      ensures events == WithCallback(old(events), t, cb)
      ensures (Place(), width, height, Style(), Shading(), Tally(), Appearance()) == old((Place(), width, height, Style(), Shading(), Tally(), Appearance()))
      ensures (cursorPos, prevCursorPos, hiding, moving, sizing, closed) == old((cursorPos, prevCursorPos, hiding, moving, sizing, closed))
      ensures Snapshot() == old(Snapshot())
    {
      events := WithCallback(events, t, cb);
      ChildrenUntouched();
    }

    /**
     * `set_shader_type` (12_imgui/src/ui/object.rs:550-559): the colour-only
     * shader drops the texture, the others make sure there is one; then the
     * shader type is stored.
     */
    method SetShaderType(t: ShaderType)
      requires Valid()
      modifies this
      ensures Valid() && Repr == old(Repr) && children == old(children)
      ensures shaderType == t && hasTexture == (t != ColorOnly)
      ensures (Place(), width, height, Style(), Input(), Tally(), Appearance()) == old((Place(), width, height, Style(), Input(), Tally(), Appearance()))
      ensures Snapshot() == old(Snapshot())
    {
      if t == ColorOnly {
        DisableTexture();
      } else {
        EnableTexture();
      }
      shaderType := t;
      ChildrenUntouched();
    }

    /** `enable_texture` (12_imgui/src/ui/object.rs:568-576): a texture is created unless there is one. */
    method EnableTexture()
      requires Valid()
      modifies this
      ensures Valid() && Repr == old(Repr) && children == old(children)
      ensures hasTexture && shaderType == old(shaderType)
      ensures (Place(), width, height, Style(), Input(), Tally(), Appearance()) == old((Place(), width, height, Style(), Input(), Tally(), Appearance()))
    {
      if hasTexture {
        return;
      }
      hasTexture := true;
    }

    /** `disable_texture` (12_imgui/src/ui/object.rs:577-588): the texture, if any, is dropped. */
    method DisableTexture()
      requires Valid()
      modifies this
      ensures Valid() && Repr == old(Repr) && children == old(children)
      ensures !hasTexture && shaderType == old(shaderType)
      ensures (Place(), width, height, Style(), Input(), Tally(), Appearance()) == old((Place(), width, height, Style(), Input(), Tally(), Appearance()))
    {
      if !hasTexture {
        return;
      }
      hasTexture := false;
    }

    /** The border writes of `set_border_size` for box `b`: the inner corners. */
    method WriteEdgeSlots(b: Box)
      requires verticesBorder.Length == BorderFloats
      modifies verticesBorder
      ensures verticesBorder[..] == EdgeSizeBorder(old(verticesBorder[..]), b)
    {
      verticesBorder[14] := InnerLeft(b);
      verticesBorder[15] := InnerTop(b);
      verticesBorder[21] := InnerRight(b);
      verticesBorder[22] := InnerTop(b);
      verticesBorder[28] := InnerRight(b);
      verticesBorder[29] := InnerTop(b);
      verticesBorder[42] := InnerRight(b);
      verticesBorder[43] := InnerBottom(b);
      verticesBorder[56] := InnerLeft(b);
      verticesBorder[57] := InnerBottom(b);
      verticesBorder[63] := InnerRight(b);
      verticesBorder[64] := InnerBottom(b);
      verticesBorder[91] := InnerLeft(b);
      verticesBorder[92] := InnerTop(b);
      verticesBorder[105] := InnerLeft(b);
      verticesBorder[106] := InnerBottom(b);
    }

    /** The content writes of `set_border_size`, `set_padding` and `reshape` for box `b`. */
    method WriteCornerSlots(b: Box)
      requires verticesContent.Length == ContentFloats && |b.padding| == 4
      modifies verticesContent
      ensures verticesContent[..] == ContentCorners(old(verticesContent[..]), b)
    {
      verticesContent[0] := ContentLeft(b);
      verticesContent[1] := ContentTop(b);
      verticesContent[9] := ContentRight(b);
      verticesContent[10] := ContentTop(b);
      verticesContent[18] := ContentLeft(b);
      verticesContent[19] := ContentBottom(b);
      verticesContent[27] := ContentRight(b);
      verticesContent[28] := ContentBottom(b);
    }

    /** The border writes of `reshape` for box `b`. */
    method WriteReshapeSlots(b: Box)
      requires verticesBorder.Length == BorderFloats
      modifies verticesBorder
      ensures verticesBorder[..] == ReshapeBorder(old(verticesBorder[..]), b)
    {
      verticesBorder[7] := OuterRight(b);
      verticesBorder[14] := InnerLeft(b);
      verticesBorder[15] := InnerTop(b);
      verticesBorder[21] := InnerRight(b);
      verticesBorder[22] := InnerTop(b);
      verticesBorder[28] := InnerRight(b);
      verticesBorder[29] := InnerTop(b);
      verticesBorder[35] := OuterRight(b);
      verticesBorder[42] := InnerRight(b);
      verticesBorder[43] := InnerBottom(b);
      verticesBorder[49] := OuterRight(b);
      verticesBorder[50] := OuterBottom(b);
      verticesBorder[56] := InnerLeft(b);
      verticesBorder[57] := InnerBottom(b);
      verticesBorder[63] := InnerRight(b);
      verticesBorder[64] := InnerBottom(b);
      verticesBorder[71] := OuterBottom(b);
      verticesBorder[77] := OuterRight(b);
      verticesBorder[78] := OuterBottom(b);
      verticesBorder[91] := InnerLeft(b);
      verticesBorder[92] := InnerTop(b);
      verticesBorder[99] := OuterBottom(b);
      verticesBorder[105] := InnerLeft(b);
      verticesBorder[106] := InnerBottom(b);
    }

    /** A fresh buffer holding `s`. */
    static method NewBuffer(s: seq<real>) returns (a: array<real>)
      ensures fresh(a) && a[..] == s
    {
      a := new real[|s|](k requires 0 <= k < |s| => s[k]);
    }
  }
}
