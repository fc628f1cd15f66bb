/**
 * The widget node of the earlier GUI stage (12_gui/src/ui/object.rs): a
 * rectangle with a position relative to its parent, a size, one colour, a
 * single vertex buffer of four corners, and owned child nodes. Its setters
 * keep `global = base + local` and hand the global position down to the
 * children; `reshape` rewrites the size-dependent corner slots and hands the
 * ratio down. Shaders, GPU buffers, textures and the mouse callbacks are not
 * modelled; `hasTexture` stands for the `Option<Texture>` handle.
 */
module GuiObject {
  import opened Common
  import opened Style
  import opened PositionTree

  /** Floats per vertex: three of position, four of colour, and `offset` of texture coordinates. */
  function Stride(offset: nat): nat
  {
    7 + offset
  }

  /** The x of the right corners for a size and ratio (12_gui/src/ui/object.rs:38, 163). */
  function Right(size: Vec2, ratio: Vec2): real
  {
    -1.0 + size.x * ratio.x
  }

  /** The y of the bottom corners for a size and ratio (12_gui/src/ui/object.rs:39, 164). */
  function Bottom(size: Vec2, ratio: Vec2): real
  {
    1.0 - size.y * ratio.y
  }

  /** The texture coordinates `(u, v)` of a corner in the textured layout; nothing in the plain one. */
  function Tex(textured: bool, u: real, v: real): (r: seq<real>)
    ensures |r| == if textured then 2 else 0
  {
    if textured then [u, v] else []
  }

  /** One vertex of the buffer: position `(x, y, 0)`, the colour, then the texture coordinates. */
  function Corner(x: real, y: real, c: Color, tex: seq<real>): (r: seq<real>)
    ensures |r| == 7 + |tex|
  {
    [x, y, 0.0, c.r, c.g, c.b, c.a] + tex
  }

  /**
   * The vertex buffer of a quad whose right corners sit at `x1` and bottom
   * corners at `y1`, in colour `c`: top-left, top-right, bottom-left,
   * bottom-right (12_gui/src/ui/object.rs:36-41, 70-75, 89-94).
   */
  function Mesh(x1: real, y1: real, c: Color, textured: bool): (r: seq<real>)
    ensures |r| == 4 * Stride(if textured then 2 else 0)
  {
    Corner(-1.0, 1.0, c, Tex(textured, 0.0, 1.0)) + Corner(x1, 1.0, c, Tex(textured, 1.0, 1.0))
    + Corner(-1.0, y1, c, Tex(textured, 0.0, 0.0)) + Corner(x1, y1, c, Tex(textured, 1.0, 0.0))
  }

  /** Channel `k` (red, green, blue, alpha) of colour `c`. */
  function Channel(c: Color, k: nat): real
  {
    if k == 0 then c.r else if k == 1 then c.g else if k == 2 then c.b else c.a
  }

  /** Buffer `v` with colour `c` written into slots 3 to 6 of vertex `k` at stride `s`. */
  function PaintAt(v: seq<real>, s: nat, c: Color, k: nat): (r: seq<real>)
    requires k * s + 7 <= |v|
    ensures |r| == |v|
  {
    v[k * s + 3 := c.r][k * s + 4 := c.g][k * s + 5 := c.b][k * s + 6 := c.a]
  }

  /** Buffer `v` after the first `n` vertices, at stride `s`, took colour `c`. */
  function Painted(v: seq<real>, s: nat, c: Color, n: nat): (r: seq<real>)
    requires n <= 4 && 7 <= s && |v| == 4 * s
    ensures |r| == |v|
  {
    if n == 0 then v else PaintAt(Painted(v, s, c, n - 1), s, c, n - 1)
  }

  /** Buffer `v` with colour `c` written into the colour slots of all four vertices. */
  function Recolored(v: seq<real>, s: nat, c: Color): (r: seq<real>)
    requires 7 <= s && |v| == 4 * s
    ensures |r| == |v|
  {
    Painted(v, s, c, 4)
  }

  /**
   * Slot `j` of vertex `k` after the first `n` vertices took colour `c`:
   * the colour channel if `k < n` and `j` is a colour slot, the old value
   * otherwise. So only colour slots ever change.
   */
  lemma {:induction false} PaintedSlot(v: seq<real>, s: nat, c: Color, n: nat, k: nat, j: nat)
    requires n <= 4 && 7 <= s && |v| == 4 * s && k < 4 && j < s
    ensures k * s + j < |v|
    ensures Painted(v, s, c, n)[k * s + j] == if k < n && 3 <= j < 7 then Channel(c, j - 3) else v[k * s + j]
  {
    VertexBefore(k, 4, s);
    if n > 0 {
      PaintedSlot(v, s, c, n - 1, k, j);
      var m := n - 1;
      if k < m {
        VertexBefore(k, m, s);
      } else if k > m {
        VertexBefore(m, k, s);
      }
    }
  }

  /** Vertex `a` of stride `s` ends where a later vertex `b` may start at the earliest. */
  lemma VertexBefore(a: nat, b: nat, s: nat)
    requires a < b
    ensures a * s + s <= b * s
  {
    assert b * s == (a + 1) * s + (b - a - 1) * s;
  }

  /** The four painting steps of a recolouring, one vertex each. */
  lemma RecoloredSteps(v: seq<real>, s: nat, c: Color)
    requires 7 <= s && |v| == 4 * s
    ensures Recolored(v, s, c) == PaintAt(PaintAt(PaintAt(PaintAt(v, s, c, 0), s, c, 1), s, c, 2), s, c, 3)
  {
    assert Painted(v, s, c, 1) == PaintAt(v, s, c, 0);
    assert Painted(v, s, c, 2) == PaintAt(Painted(v, s, c, 1), s, c, 1);
    assert Painted(v, s, c, 3) == PaintAt(Painted(v, s, c, 2), s, c, 2);
  }

  /** Buffer `u` of one vertex with colour `c` in its colour slots. */
  function Tint(u: seq<real>, c: Color): (r: seq<real>)
    requires 7 <= |u|
    ensures |r| == |u|
  {
    u[3 := c.r][4 := c.g][5 := c.b][6 := c.a]
  }

  /** Painting vertex `k` of a buffer made of four vertices tints that vertex alone. */
  lemma PaintChunks(a0: seq<real>, a1: seq<real>, a2: seq<real>, a3: seq<real>, s: nat, c: Color)
    requires 7 <= s && |a0| == |a1| == |a2| == |a3| == s
    ensures PaintAt(a0 + a1 + a2 + a3, s, c, 0) == Tint(a0, c) + a1 + a2 + a3
    ensures PaintAt(a0 + a1 + a2 + a3, s, c, 1) == a0 + Tint(a1, c) + a2 + a3
    ensures PaintAt(a0 + a1 + a2 + a3, s, c, 2) == a0 + a1 + Tint(a2, c) + a3
    ensures PaintAt(a0 + a1 + a2 + a3, s, c, 3) == a0 + a1 + a2 + Tint(a3, c)
  {
  }

  /** Recolouring a mesh gives the same quad in the new colour; corners and texture coordinates stay. */
  lemma RecoloredMesh(x1: real, y1: real, c0: Color, c: Color, textured: bool)
    ensures Recolored(Mesh(x1, y1, c0, textured), Stride(if textured then 2 else 0), c) == Mesh(x1, y1, c, textured)
  {
    var s := Stride(if textured then 2 else 0);
    var a0, a1 := Corner(-1.0, 1.0, c0, Tex(textured, 0.0, 1.0)), Corner(x1, 1.0, c0, Tex(textured, 1.0, 1.0));
    var a2, a3 := Corner(-1.0, y1, c0, Tex(textured, 0.0, 0.0)), Corner(x1, y1, c0, Tex(textured, 1.0, 0.0));
    var b0, b1 := Corner(-1.0, 1.0, c, Tex(textured, 0.0, 1.0)), Corner(x1, 1.0, c, Tex(textured, 1.0, 1.0));
    var b2, b3 := Corner(-1.0, y1, c, Tex(textured, 0.0, 0.0)), Corner(x1, y1, c, Tex(textured, 1.0, 0.0));
    assert Tint(a0, c) == b0 && Tint(a1, c) == b1 && Tint(a2, c) == b2 && Tint(a3, c) == b3;
    calc {
      Recolored(a0 + a1 + a2 + a3, s, c);
      { RecoloredSteps(a0 + a1 + a2 + a3, s, c); PaintChunks(a0, a1, a2, a3, s, c); }
      PaintAt(PaintAt(PaintAt(b0 + a1 + a2 + a3, s, c, 1), s, c, 2), s, c, 3);
      { PaintChunks(b0, a1, a2, a3, s, c); }
      PaintAt(PaintAt(b0 + b1 + a2 + a3, s, c, 2), s, c, 3);
      { PaintChunks(b0, b1, a2, a3, s, c); }
      PaintAt(b0 + b1 + b2 + a3, s, c, 3);
      { PaintChunks(b0, b1, b2, a3, s, c); }
      b0 + b1 + b2 + b3;
    }
  }

  /** The right x and the bottom y of a mesh can be read back from its second and third vertex. */
  lemma MeshCorners(x1: real, y1: real, c: Color, textured: bool)
    ensures var s := Stride(if textured then 2 else 0);
      Mesh(x1, y1, c, textured)[s] == x1 && Mesh(x1, y1, c, textured)[2 * s + 1] == y1
  {
  }

  /** A buffer that holds some quad in colour `c0` holds that quad in colour `c` once recoloured. */
  lemma RecoloredKeepsShape(v: seq<real>, c0: Color, c: Color, textured: bool)
    requires var s := Stride(if textured then 2 else 0); |v| == 4 * s && v == Mesh(v[s], v[2 * s + 1], c0, textured)
    ensures var s := Stride(if textured then 2 else 0); var r := Recolored(v, s, c);
      r == Mesh(v[s], v[2 * s + 1], c, textured) && r == Mesh(r[s], r[2 * s + 1], c, textured)
  {
    var s := Stride(if textured then 2 else 0);
    RecoloredMesh(v[s], v[2 * s + 1], c0, c, textured);
    MeshCorners(v[s], v[2 * s + 1], c, textured);
  }

  /** Buffer `v` with stride `s` after the four slot writes of `reshape` for right `x1` and bottom `y1`. */
  function Reshaped(v: seq<real>, s: nat, x1: real, y1: real): (r: seq<real>)
    requires 4 * s <= |v| && 2 <= s
    ensures |r| == |v|
  {
    v[1 * s := x1][2 * s + 1 := y1][3 * s := x1][3 * s + 1 := y1]
  }

  /** The reshape writes of a buffer made of four vertices touch the x of the second and fourth and the y of the third and fourth. */
  lemma ReshapeChunks(a0: seq<real>, a1: seq<real>, a2: seq<real>, a3: seq<real>, s: nat, x1: real, y1: real)
    requires 7 <= s && |a0| == |a1| == |a2| == |a3| == s
    ensures Reshaped(a0 + a1 + a2 + a3, s, x1, y1) == a0 + a1[0 := x1] + a2[1 := y1] + a3[0 := x1][1 := y1]
  {
  }

  /** Reshaping a mesh gives the same quad, in the same colour, with the new corners. */
  lemma ReshapedMesh(x0: real, y0: real, x1: real, y1: real, c: Color, textured: bool)
    ensures Reshaped(Mesh(x0, y0, c, textured), Stride(if textured then 2 else 0), x1, y1) == Mesh(x1, y1, c, textured)
  {
    ReshapeChunks(Corner(-1.0, 1.0, c, Tex(textured, 0.0, 1.0)), Corner(x0, 1.0, c, Tex(textured, 1.0, 1.0)),
      Corner(-1.0, y0, c, Tex(textured, 0.0, 0.0)), Corner(x0, y0, c, Tex(textured, 1.0, 0.0)),
      Stride(if textured then 2 else 0), x1, y1);
    assert Corner(x0, 1.0, c, Tex(textured, 1.0, 1.0))[0 := x1] == Corner(x1, 1.0, c, Tex(textured, 1.0, 1.0));
    assert Corner(-1.0, y0, c, Tex(textured, 0.0, 0.0))[1 := y1] == Corner(-1.0, y1, c, Tex(textured, 0.0, 0.0));
    assert Corner(x0, y0, c, Tex(textured, 1.0, 0.0))[0 := x1][1 := y1] == Corner(x1, y1, c, Tex(textured, 1.0, 0.0));
  }

  /**
   * A run of sibling subtrees and the footprint they share, as the frame
   * lemmas of `Object` take them; one datatype argument keeps those
   * two-state lemmas to a single parameter.
   */
  datatype Siblings = Siblings(kids: seq<Object>, repr: set<object>)

  /** The sibling at `index` among `among`. */
  datatype Sibling = Sibling(among: Siblings, index: nat)

  /**
   * Everything of a subtree but its positions, node by node: the ratio, the
   * look (size, colour, buffer, texture state) and the children.
   */
  datatype AttrTree = AttrNode(ratio: Vec2, look: (Vec2, Color, seq<real>, bool, nat), objects: seq<Object>, kids: seq<AttrTree>)

  /**
   * What reshaping leaves of a subtree, node by node: everything but the
   * positions, the ratio and the buffer, that is the size, the colour, the
   * texture state and the children.
   */
  datatype ShapeTree = ShapeNode(size: Vec2, color: Color, hasTexture: bool, offset: nat, objects: seq<Object>, kids: seq<ShapeTree>)

  /** The shape of attribute tree `a`: its ratios and buffers dropped throughout. */
  function ShapeOf(a: AttrTree): ShapeTree
    decreases a, 1
  {
    ShapeNode(a.look.0, a.look.1, a.look.3, a.look.4, a.objects, ShapesOf(a.kids))
  }

  /** The shapes of attribute trees `ts`, one by one. */
  function ShapesOf(ts: seq<AttrTree>): (r: seq<ShapeTree>)
    ensures |r| == |ts| && forall i :: 0 <= i < |ts| ==> r[i] == ShapeOf(ts[i])
    decreases ts, 0
  {
    seq(|ts|, i requires 0 <= i < |ts| => ShapeOf(ts[i]))
  }

  class Object {
    const id: nat
    var ratio: Vec2
    var localPos: Vec2
    var basePos: Vec2
    var globalPos: Vec2
    var size: Vec2
    var color: Color
    var vertices: seq<real>
    var hasTexture: bool
    var offset: nat
    var objects: seq<Object>

    ghost var Repr: set<object>

    /** The node owns its children, its buffer has four vertices of its stride, and the children are valid subtrees. */
    ghost predicate Valid()
      reads this, Repr
      decreases Repr, 1
    {
      Owns() && Subtrees(objects, KidsRepr())
    }

    ghost predicate Owns()
      reads this
    {
      this in Repr && (offset == 0 || offset == 2) && |vertices| == 4 * Stride(offset)
    }

    /** The part of the footprint that belongs to the children. */
    ghost function KidsRepr(): set<object>
      reads this
    {
      Repr - {this}
    }

    /** Each of `kids` is a valid subtree inside `R`, and their footprints are disjoint. */
    static ghost predicate Subtrees(kids: seq<Object>, R: set<object>)
      reads R
      decreases R, 2
    {
      && (forall i :: 0 <= i < |kids| ==> kids[i] in R && kids[i].Repr <= R && kids[i].Valid())
      && (forall i, j :: 0 <= i < j < |kids| && kids[i] in R && kids[j] in R ==> kids[i].Repr !! kids[j].Repr)
    }

    /** The buffer holds the quad for the node's own size, ratio and colour, in its layout. */
    ghost predicate Drawn()
      reads this
    {
      vertices == Mesh(Right(size, ratio), Bottom(size, ratio), color, offset == 2)
    }

    /** The buffer holds a quad in the node's colour and layout, for whatever corners its slots say. */
    ghost predicate Shaped()
      reads this
      requires |vertices| == 4 * Stride(offset)
    {
      vertices == Mesh(vertices[Stride(offset)], vertices[2 * Stride(offset) + 1], color, offset == 2)
    }

    /** Every node of the subtree has ratio `r`. */
    ghost predicate AllAt(r: Vec2)
      requires Valid()
      reads Repr
      decreases Repr, 1
    {
      ratio == r && KidsAt(objects, KidsRepr(), r)
    }

    /** Every node of the valid subtrees `kids` inside `R` has ratio `r`. */
    static ghost predicate KidsAt(kids: seq<Object>, R: set<object>, r: Vec2)
      requires Subtrees(kids, R)
      reads R
      decreases R, 2
    {
      forall i :: 0 <= i < |kids| ==> kids[i].AllAt(r)
    }

    /** The positions of the whole subtree, as a value. */
    ghost function Snapshot(): PosTree
      requires Valid()
      reads Repr
      decreases Repr, 1
    {
      Node(localPos, basePos, globalPos, Snapshots(objects, KidsRepr()))
    }

    /** The snapshots of valid subtrees `kids` inside `R`. */
    static ghost function Snapshots(kids: seq<Object>, R: set<object>): (r: seq<PosTree>)
      requires Subtrees(kids, R)
      reads R
      ensures |r| == |kids|
      ensures forall i :: 0 <= i < |kids| ==> r[i] == kids[i].Snapshot()
      decreases R, 2
    {
      seq(|kids|, i requires 0 <= i < |kids| && Subtrees(kids, R) reads R => kids[i].Snapshot())
    }

    /** Everything but the positions of the whole subtree, as a value. */
    ghost function Attrs(): AttrTree
      requires Valid()
      reads Repr
      decreases Repr, 1
    {
      AttrNode(ratio, Look(), objects, AttrsOf(objects, KidsRepr()))
    }

    /** The attribute trees of valid subtrees `kids` inside `R`. */
    static ghost function AttrsOf(kids: seq<Object>, R: set<object>): (r: seq<AttrTree>)
      requires Subtrees(kids, R)
      reads R
      ensures |r| == |kids|
      ensures forall i :: 0 <= i < |kids| ==> r[i] == kids[i].Attrs()
      decreases R, 2
    {
      seq(|kids|, i requires 0 <= i < |kids| && Subtrees(kids, R) reads R => kids[i].Attrs())
    }

    /** The subtree as reshaping leaves it: `Attrs()` without its ratios and buffers. */
    ghost function Shape(): ShapeTree
      requires Valid()
      reads Repr
    {
      ShapeOf(Attrs())
    }

    /** What the setters of one group leave alone: size, colour, buffer and texture state. */
    ghost function Look(): (Vec2, Color, seq<real>, bool, nat)
      reads this
    {
      (size, color, vertices, hasTexture, offset)
    }

    /**
     * When child `i` of valid subtrees `kids` changed only inside its own
     * footprint and stayed valid, all are still valid subtrees, the others
     * are untouched, and only the `i`-th snapshot may differ.
     */
    static twostate lemma OneChanged(s: Sibling)
      requires old(Subtrees(s.among.kids, s.among.repr)) && s.index < |s.among.kids|
      requires s.among.kids[s.index].Valid() && s.among.kids[s.index].Repr == old(s.among.kids[s.index].Repr)
      requires forall o: object :: o in s.among.repr && o !in old(s.among.kids[s.index].Repr) ==> unchanged(o)
      ensures Subtrees(s.among.kids, s.among.repr)
      ensures Snapshots(s.among.kids, s.among.repr) == old(Snapshots(s.among.kids, s.among.repr))[s.index := s.among.kids[s.index].Snapshot()]
      ensures forall j :: 0 <= j < |s.among.kids| && j != s.index ==> unchanged(s.among.kids[j])
    {
      var kids, i := s.among.kids, s.index;
      forall j | 0 <= j < |kids| && j != i
        ensures kids[j].Repr == old(kids[j].Repr) && kids[j].Valid() && kids[j].Snapshot() == old(kids[j].Snapshot()) && unchanged(kids[j])
      {
        assert old(kids[j].Repr !! kids[i].Repr) by {
          if j < i { } else { }
        }
        assert old(kids[j].Valid()) && old(kids[j] in kids[j].Repr);
      }
    }

    /**
     * Under the conditions of `OneChanged`, when child `i` kept its
     * attributes, so did all of `kids`.
     */
    static twostate lemma AttrsKept(s: Sibling)
      requires old(Subtrees(s.among.kids, s.among.repr)) && Subtrees(s.among.kids, s.among.repr) && s.index < |s.among.kids|
      requires s.among.kids[s.index].Repr == old(s.among.kids[s.index].Repr)
      requires forall o: object :: o in s.among.repr && o !in old(s.among.kids[s.index].Repr) ==> unchanged(o)
      requires s.among.kids[s.index].Attrs() == old(s.among.kids[s.index].Attrs())
      ensures AttrsOf(s.among.kids, s.among.repr) == old(AttrsOf(s.among.kids, s.among.repr))
    {
      var kids, i := s.among.kids, s.index;
      forall j | 0 <= j < |kids| && j != i
        ensures kids[j].Attrs() == old(kids[j].Attrs())
      {
        assert old(kids[j].Repr !! kids[i].Repr) by {
          if j < i { } else { }
        }
        assert old(kids[j].Valid()) && old(kids[j] in kids[j].Repr);
      }
    }

    /**
     * Under the conditions of `OneChanged`, with all of `kids` still valid
     * subtrees, only the `i`-th attribute tree may differ.
     */
    static twostate lemma AttrsChanged(s: Sibling)
      requires old(Subtrees(s.among.kids, s.among.repr)) && Subtrees(s.among.kids, s.among.repr) && s.index < |s.among.kids|
      requires s.among.kids[s.index].Repr == old(s.among.kids[s.index].Repr)
      requires forall o: object :: o in s.among.repr && o !in old(s.among.kids[s.index].Repr) ==> unchanged(o)
      ensures AttrsOf(s.among.kids, s.among.repr) == old(AttrsOf(s.among.kids, s.among.repr))[s.index := s.among.kids[s.index].Attrs()]
    {
      var kids, i := s.among.kids, s.index;
      forall j | 0 <= j < |kids| && j != i
        ensures kids[j].Attrs() == old(kids[j].Attrs())
      {
        assert old(kids[j].Repr !! kids[i].Repr) by {
          if j < i { } else { }
        }
        assert old(kids[j].Valid()) && old(kids[j] in kids[j].Repr);
      }
    }

    /** `OneChanged` for the children of this node. */
    twostate lemma ChildChanged(i: nat)
      requires old(Subtrees(objects, KidsRepr())) && i < |objects| && objects == old(objects) && KidsRepr() == old(KidsRepr())
      requires objects[i].Valid() && objects[i].Repr == old(objects[i].Repr)
      requires forall o: object :: o in KidsRepr() && o !in old(objects[i].Repr) ==> unchanged(o)
      ensures Subtrees(objects, KidsRepr())
      ensures Snapshots(objects, KidsRepr()) == old(Snapshots(objects, KidsRepr()))[i := objects[i].Snapshot()]
      ensures forall j :: 0 <= j < |objects| && j != i ==> unchanged(objects[j])
    {
      OneChanged(Sibling(Siblings(objects, KidsRepr()), i));
    }

    /**
     * A valid subtree `c` outside the children's footprint, while nothing
     * in that footprint changed, joins the children as the last of them;
     * the node stays valid and its snapshot gains `c`'s.
     */
    twostate lemma ChildAppended(new c: Object)
      requires old(Valid()) && Owns()
      requires (localPos, basePos, globalPos) == old((localPos, basePos, globalPos))
      requires objects == old(objects) + [c] && KidsRepr() == old(KidsRepr()) + c.Repr
      requires forall o: object :: o in old(KidsRepr()) ==> unchanged(o)
      requires c.Valid() && c.Repr !! old(KidsRepr())
      requires (ratio, Look()) == old((ratio, Look()))
      ensures Valid()
      ensures Snapshot() == old(Snapshot()).(kids := old(Snapshot()).kids + [c.Snapshot()])
      ensures Attrs() == old(Attrs()).(objects := objects, kids := old(Attrs()).kids + [c.Attrs()])
    {
      var kids := old(objects);
      forall j | 0 <= j < |kids|
        ensures kids[j].Repr == old(kids[j].Repr) && kids[j].Valid() && kids[j].Snapshot() == old(kids[j].Snapshot())
        ensures kids[j].Attrs() == old(kids[j].Attrs())
      {
        assert old(kids[j].Valid()) && old(kids[j].Owns());
        assert old(kids[j].Valid()) && old(kids[j] in kids[j].Repr);
      }
      assert c in c.Repr;
      forall i | 0 <= i < |objects|
        ensures objects[i] in KidsRepr() && objects[i].Repr <= KidsRepr() && objects[i].Valid()
      {
        if i < |kids| { assert objects[i] == kids[i]; } else { assert objects[i] == c; }
      }
      forall i, j | 0 <= i < j < |objects|
        ensures objects[i].Repr !! objects[j].Repr
      {
        assert objects[i] == kids[i];
        if j < |kids| {
          assert objects[j] == kids[j];
          assert old(kids[i].Repr !! kids[j].Repr);
        } else {
          assert objects[j] == c;
        }
      }
    }

    lemma ChildValid(i: nat)
      requires Valid() && i < |objects|
      ensures objects[i] in KidsRepr() && objects[i].Repr <= KidsRepr() && objects[i].Valid()
    {
    }

    /**
     * `Object::create` (12_gui/src/ui/object.rs:29-65): a white 20 by 20
     * quad at the origin with no children, no texture and the untextured
     * layout, at the ratio of the frame buffer. The shader program and GPU
     * buffers are not modelled.
     */
    constructor Create(id: nat, frameBufferSizeX: real, frameBufferSizeY: real)
      requires frameBufferSizeX != 0.0 && frameBufferSizeY != 0.0
      ensures Valid() && fresh(Repr) && Drawn()
      ensures this.id == id && ratio == ClipRatio(frameBufferSizeX, frameBufferSizeY)
      ensures Snapshot() == Node(Vec2(0.0, 0.0), Vec2(0.0, 0.0), Vec2(0.0, 0.0), [])
      ensures size == Vec2(20.0, 20.0) && color == Color(1.0, 1.0, 1.0, 1.0)
      ensures !hasTexture && offset == 0 && objects == []
    {
      var r, sz, c := Vec2(2.0 / frameBufferSizeX, 2.0 / frameBufferSizeY), Vec2(20.0, 20.0), Color(1.0, 1.0, 1.0, 1.0);
      this.id := id;
      ratio := r;
      localPos := Vec2(0.0, 0.0);
      basePos := Vec2(0.0, 0.0);
      globalPos := Vec2(0.0, 0.0).Plus(Vec2(0.0, 0.0));
      size := sz;
      color := c;
      vertices := Mesh(Right(sz, r), Bottom(sz, r), c, false);
      hasTexture := false;
      offset := 0;
      objects := [];
      new;
      Repr := {this};
    }

    /**
     * `enable_texture` (12_gui/src/ui/object.rs:67-84): the buffer is
     * replaced by the textured layout of the current quad, nine floats per
     * vertex, and a texture handle is created.
     */
    method EnableTexture()
      requires Valid()
      modifies this`offset, this`vertices, this`hasTexture
      ensures Valid() && Drawn()
      ensures offset == 2 && |vertices| == 36 && hasTexture
    {
      offset := 2;
      vertices := Mesh(Right(size, ratio), Bottom(size, ratio), color, true);
      hasTexture := true;
    }

    /**
     * `disable_texture` (12_gui/src/ui/object.rs:86-105): the buffer is
     * replaced by the untextured layout of the current quad, seven floats
     * per vertex. The texture handle is kept.
     */
    method DisableTexture()
      requires Valid()
      modifies this`offset, this`vertices
      ensures Valid() && Drawn()
      ensures offset == 0 && |vertices| == 28
    {
      offset := 0;
      vertices := Mesh(Right(size, ratio), Bottom(size, ratio), color, false);
    }

    /**
     * `push_object` (12_gui/src/ui/object.rs:107-111): the node `c` handed
     * over is rebased onto this node's global position, then appended as
     * the last child.
     */
    method PushObject(c: Object)
      requires Valid() && c.Valid() && c.Repr !! Repr
      modifies this`objects, this`Repr, c.Repr
      ensures Valid() && Repr == old(Repr) + c.Repr
      ensures objects == old(objects) + [c] && |objects| == |old(objects)| + 1
      ensures Snapshot() == old(Snapshot()).(kids := old(Snapshot()).kids + [RebaseBoth(old(c.Snapshot()), globalPos)])
      ensures Attrs() == old(Attrs()).(objects := objects, kids := old(Attrs()).kids + [old(c.Attrs())])
      ensures c.Valid() && c.basePos == globalPos && c.Look() == old(c.Look()) && c.Attrs() == old(c.Attrs())
    {
      c.SetBasePos(globalPos.x, globalPos.y);
      Adopt(c);
    }

    /** The appending half of `push_object`: valid subtree `c`, disjoint from this one, becomes the last child. */
    method Adopt(c: Object)
      requires Valid() && c.Valid() && c.Repr !! Repr
      modifies this`objects, this`Repr
      ensures Valid() && Repr == old(Repr) + c.Repr
      ensures objects == old(objects) + [c]
      ensures Snapshot() == old(Snapshot()).(kids := old(Snapshot()).kids + [c.Snapshot()])
      ensures Attrs() == old(Attrs()).(objects := objects, kids := old(Attrs()).kids + [c.Attrs()])
    {
      objects, Repr := objects + [c], Repr + c.Repr;
      assert KidsRepr() == old(KidsRepr()) + c.Repr;
      ChildAppended(c);
    }

    /**
     * `set_loacl_pos` (12_gui/src/ui/object.rs:113-121): the local position
     * takes both values, the global position becomes base plus local, and
     * every child is rebased onto it, recursively. Only positions change.
     */
    method SetLocalPos(x: real, y: real)
      requires Valid()
      modifies Repr
      decreases Repr, 3
      ensures Valid() && Repr == old(Repr) && objects == old(objects)
      ensures Snapshot() == RelocateBoth(old(Snapshot()), Vec2(x, y))
      ensures ratio == old(ratio) && Look() == old(Look())
      ensures Attrs() == old(Attrs())
    {
      ghost var t0 := Snapshot();
      ghost var a0 := Attrs();
      localPos := Vec2(x, y);
      globalPos := basePos.Plus(localPos);
      assert Snapshots(objects, KidsRepr()) == t0.kids;
      assert AttrsOf(objects, KidsRepr()) == a0.kids;
      RebaseObjects(globalPos);
    }

    /**
     * `set_base_pos` (12_gui/src/ui/object.rs:152-160): the base takes both
     * values, the global position becomes base plus local, and every child
     * is rebased onto it, recursively. Only positions change.
     */
    method SetBasePos(x: real, y: real)
      requires Valid()
      modifies Repr
      decreases Repr, 3
      ensures Valid() && Repr == old(Repr) && objects == old(objects)
      ensures Snapshot() == RebaseBoth(old(Snapshot()), Vec2(x, y))
      ensures ratio == old(ratio) && Look() == old(Look())
      ensures Attrs() == old(Attrs())
    {
      ghost var t0 := Snapshot();
      ghost var a0 := Attrs();
      basePos := Vec2(x, y);
      globalPos := basePos.Plus(localPos);
      assert Snapshots(objects, KidsRepr()) == t0.kids;
      assert AttrsOf(objects, KidsRepr()) == a0.kids;
      RebaseObjects(globalPos);
    }

    /** The loop over the children in both position setters: each is rebased onto `g`. */
    method RebaseObjects(g: Vec2)
      requires Owns() && Subtrees(objects, KidsRepr())
      modifies KidsRepr()
      decreases Repr, 2
      ensures Subtrees(objects, KidsRepr())
      ensures forall j :: 0 <= j < |objects| ==> Snapshots(objects, KidsRepr())[j] == RebaseBoth(old(Snapshots(objects, KidsRepr()))[j], g)
      ensures AttrsOf(objects, KidsRepr()) == old(AttrsOf(objects, KidsRepr()))
    {
      ghost var before := Snapshots(objects, KidsRepr());
      for i := 0 to |objects|
        invariant Subtrees(objects, KidsRepr())
        invariant forall j :: 0 <= j < |objects| ==> Snapshots(objects, KidsRepr())[j] == if j < i then RebaseBoth(before[j], g) else before[j]
        invariant AttrsOf(objects, KidsRepr()) == old(AttrsOf(objects, KidsRepr()))
      {
        RebaseObject(i, g);
      }
    }

    /** One step of that loop: child `i` is rebased onto `g`. */
    method RebaseObject(i: nat, g: Vec2)
      requires Owns() && Subtrees(objects, KidsRepr()) && i < |objects|
      modifies objects[i].Repr
      decreases Repr, 1
      ensures Subtrees(objects, KidsRepr())
      ensures Snapshots(objects, KidsRepr()) == old(Snapshots(objects, KidsRepr()))[i := RebaseBoth(old(Snapshots(objects, KidsRepr()))[i], g)]
      ensures AttrsOf(objects, KidsRepr()) == old(AttrsOf(objects, KidsRepr()))
    {
      objects[i].SetBasePos(g.x, g.y);
      ChildChanged(i);
      AttrsKept(Sibling(Siblings(objects, KidsRepr()), i));
    }

    /**
     * `set_size` (12_gui/src/ui/object.rs:123-128): the size takes both
     * values, then the node reshapes, so its buffer's corners are those of
     * the new size.
     */
    method SetSize(width: real, height: real)
      requires Valid()
      modifies Repr
      ensures Valid() && Repr == old(Repr) && objects == old(objects)
      ensures size == Vec2(width, height) && (color, hasTexture, offset) == old((color, hasTexture, offset))
      ensures vertices == Reshaped(old(vertices), Stride(offset), Right(size, ratio), Bottom(size, ratio))
      ensures old(Shaped()) ==> Drawn()
      ensures AllAt(ratio) && Snapshot() == old(Snapshot())
      ensures Shape() == old(Shape()).(size := size)
    {
      ghost var a0 := AttrsOf(objects, KidsRepr());
      size := Vec2(width, height);
      assert AttrsOf(objects, KidsRepr()) == a0;
      Reshape();
    }

    /**
     * `reshape` (12_gui/src/ui/object.rs:162-173): the x of the two right
     * corners and the y of the two bottom corners are rewritten for the
     * current size and ratio, then every child takes this node's ratio and
     * reshapes, recursively. A buffer that held a quad in the node's colour
     * holds the quad of the current size afterwards; positions stay.
     */
    method Reshape()
      requires Valid()
      modifies Repr
      decreases Repr, 3
      ensures Valid() && Repr == old(Repr) && objects == old(objects)
      ensures (size, color, hasTexture, offset, ratio) == old((size, color, hasTexture, offset, ratio))
      ensures vertices == Reshaped(old(vertices), Stride(offset), Right(size, ratio), Bottom(size, ratio))
      ensures old(Shaped()) ==> Drawn()
      ensures AllAt(ratio) && Snapshot() == old(Snapshot())
      ensures Shape() == old(Shape())
    {
      ghost var t0 := Snapshot();
      ghost var a0 := AttrsOf(objects, KidsRepr());
      var s := Stride(offset);
      if Shaped() {
        ReshapedMesh(vertices[s], vertices[2 * s + 1], Right(size, ratio), Bottom(size, ratio), color, offset == 2);
      }
      vertices := Reshaped(vertices, s, Right(size, ratio), Bottom(size, ratio));
      assert Snapshots(objects, KidsRepr()) == t0.kids && AttrsOf(objects, KidsRepr()) == a0;
      ReshapeObjects();
    }

    /** The loop over the children in `reshape`. */
    method ReshapeObjects()
      requires Owns() && Subtrees(objects, KidsRepr())
      modifies KidsRepr()
      decreases Repr, 2
      ensures Subtrees(objects, KidsRepr())
      ensures Snapshots(objects, KidsRepr()) == old(Snapshots(objects, KidsRepr()))
      ensures KidsAt(objects, KidsRepr(), ratio)
      ensures ShapesOf(AttrsOf(objects, KidsRepr())) == old(ShapesOf(AttrsOf(objects, KidsRepr())))
    {
      for i := 0 to |objects|
        invariant Subtrees(objects, KidsRepr())
        invariant Snapshots(objects, KidsRepr()) == old(Snapshots(objects, KidsRepr()))
        invariant ShapesOf(AttrsOf(objects, KidsRepr())) == old(ShapesOf(AttrsOf(objects, KidsRepr())))
        invariant forall j :: 0 <= j < i ==> objects[j].AllAt(ratio)
      {
        ReshapeObject(i);
      }
    }

    /** One step of that loop: child `i` takes this node's ratio and reshapes. */
    method ReshapeObject(i: nat)
      requires Owns() && Subtrees(objects, KidsRepr()) && i < |objects|
      modifies objects[i].Repr
      decreases Repr, 1
      ensures Subtrees(objects, KidsRepr())
      ensures Snapshots(objects, KidsRepr()) == old(Snapshots(objects, KidsRepr()))
      ensures objects[i].AllAt(ratio)
      ensures forall j :: 0 <= j < |objects| && j != i ==> (objects[j].AllAt(ratio) <==> old(objects[j].AllAt(ratio)))
      ensures ShapesOf(AttrsOf(objects, KidsRepr())) == old(ShapesOf(AttrsOf(objects, KidsRepr())))
    {
      var child := objects[i];
      ghost var s0 := child.Shape();
      ghost var a0 := AttrsOf(child.objects, child.KidsRepr());
      child.ratio := ratio;
      assert AttrsOf(child.objects, child.KidsRepr()) == a0;
      assert child.Shape() == s0;
      child.Reshape();
      ChildChanged(i);
      AttrsChanged(Sibling(Siblings(objects, KidsRepr()), i));
      assert ShapesOf(AttrsOf(objects, KidsRepr())) == old(ShapesOf(AttrsOf(objects, KidsRepr())))[i := child.Shape()];
      forall j | 0 <= j < |objects| && j != i
        ensures objects[j].AllAt(ratio) <==> old(objects[j].AllAt(ratio))
      {
        assert old(objects[j].Repr !! objects[i].Repr) by {
          if j < i { } else { }
        }
      }
    }

    /**
     * `set_color` (12_gui/src/ui/object.rs:130-143): the colour takes the
     * bytes scaled to [0, 1], and the loop over the four vertices writes it
     * into their colour slots only, at the stride of the current layout.
     * A buffer that held the quad in the old colour holds it in the new one.
     */
    method SetColor(r: Byte, g: Byte, b: Byte, a: Byte)
      requires Valid()
      modifies this`color, this`vertices
      ensures Valid() && color == FromU8(r, g, b, a)
      ensures vertices == Recolored(old(vertices), Stride(offset), color)
      ensures old(Drawn()) ==> Drawn()
      ensures old(Shaped()) ==> Shaped()
    {
      ghost var v0 := vertices;
      color := FromU8(r, g, b, a);
      PaintVertices();
      if old(Drawn()) {
        RecoloredMesh(Right(size, ratio), Bottom(size, ratio), old(color), color, offset == 2);
      }
      if old(Shaped()) {
        RecoloredKeepsShape(v0, old(color), color, offset == 2);
      }
    }

    /** The loop of `set_color`: each of the four vertices takes the colour, at the stride of the layout. */
    method PaintVertices()
      requires (offset == 0 || offset == 2) && |vertices| == 4 * Stride(offset)
      modifies this`vertices
      ensures vertices == Recolored(old(vertices), Stride(offset), color)
      ensures Stride(offset) == Stride(if offset == 2 then 2 else 0)
    {
      var s := 7 + offset;
      for index := 0 to 4
        invariant vertices == Painted(old(vertices), s, color, index)
      {
        assert (index + 1) * s <= 4 * s;
        PaintVertex(index, s);
      }
    }

    /** One step of that loop: vertex `index` takes the colour in slots 3 to 6. */
    method PaintVertex(index: nat, s: nat)
      requires index * s + 7 <= |vertices|
      modifies this`vertices
      ensures vertices == PaintAt(old(vertices), s, color, index)
    {
      vertices := vertices[index * s + 3 := color.r];
      vertices := vertices[index * s + 4 := color.g];
      vertices := vertices[index * s + 5 := color.b];
      vertices := vertices[index * s + 6 := color.a];
    }
  }
}
