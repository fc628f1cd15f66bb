/**
 * The vertex meshes of a 12_imgui widget. The border mesh has 16 vertices of
 * 7 floats (x, y, z, r, g, b, a): four per edge, in the order top, right,
 * bottom, left. The content mesh has 4 vertices of 9 floats (x, y, z,
 * r, g, b, a, u, v). Positions are in normalised device coordinates: the
 * widget is drawn at the top-left corner, `ratio` converts pixels, and the
 * translation to the widget's position happens at draw time.
 */
module Layout {
  import opened Common
  import opened Style

  const BorderFloats := 112
  const ContentFloats := 36

  /** What the vertex positions are computed from. */
  datatype Box = Box(width: real, height: real, border: Border, padding: seq<real>, ratio: Vec2)

  function OuterRight(b: Box): real { -1.0 + b.width * b.ratio.x }
  function OuterBottom(b: Box): real { 1.0 - b.height * b.ratio.y }
  function InnerLeft(b: Box): real { -1.0 + b.border.left.size * b.ratio.x }
  function InnerRight(b: Box): real { -1.0 + (b.width - b.border.right.size) * b.ratio.x }
  function InnerTop(b: Box): real { 1.0 - b.border.top.size * b.ratio.y }
  function InnerBottom(b: Box): real { 1.0 - (b.height - b.border.bottom.size) * b.ratio.y }

  function ContentLeft(b: Box): real
    requires |b.padding| == 4
  {
    -1.0 + (b.border.left.size + b.padding[3]) * b.ratio.x
  }

  function ContentRight(b: Box): real
    requires |b.padding| == 4
  {
    -1.0 + (b.width - (b.border.right.size + b.padding[1])) * b.ratio.x
  }

  function ContentTop(b: Box): real
    requires |b.padding| == 4
  {
    1.0 - (b.border.top.size + b.padding[0]) * b.ratio.y
  }

  function ContentBottom(b: Box): real
    requires |b.padding| == 4
  {
    1.0 - (b.height - (b.border.bottom.size + b.padding[2])) * b.ratio.y
  }

  /** A position (x or y) slot of the border mesh. */
  predicate IsBorderPositionSlot(k: int)
  {
    0 <= k < BorderFloats && k % 7 < 2
  }

  /** A position (x or y) slot of the content mesh. */
  predicate IsContentPositionSlot(k: int)
  {
    0 <= k < ContentFloats && k % 9 < 2
  }

  // ---------------------------------------------------------------------
  // The meshes a node's fields determine.

  /**
   * The position of border vertex `v` for box `b`: four vertices per edge,
   * in the order top, right, bottom, left (12_imgui/src/ui/object.rs:90-111).
   */
  function BorderVertex(b: Box, v: nat): Vec2
  {
    match v
    case 0 => Vec2(-1.0, 1.0)
    case 1 => Vec2(OuterRight(b), 1.0)
    case 2 => Vec2(InnerLeft(b), InnerTop(b))
    case 3 => Vec2(InnerRight(b), InnerTop(b))
    case 4 => Vec2(InnerRight(b), InnerTop(b))
    case 5 => Vec2(OuterRight(b), 1.0)
    case 6 => Vec2(InnerRight(b), InnerBottom(b))
    case 7 => Vec2(OuterRight(b), OuterBottom(b))
    case 8 => Vec2(InnerLeft(b), InnerBottom(b))
    case 9 => Vec2(InnerRight(b), InnerBottom(b))
    case 10 => Vec2(-1.0, OuterBottom(b))
    case 11 => Vec2(OuterRight(b), OuterBottom(b))
    case 12 => Vec2(-1.0, 1.0)
    case 13 => Vec2(InnerLeft(b), InnerTop(b))
    case 14 => Vec2(-1.0, OuterBottom(b))
    case _ => Vec2(InnerLeft(b), InnerBottom(b))
  }

  /** Field `j` of a border vertex at `p` in colour `c`: x, y, z, r, g, b, a. */
  function Field7(p: Vec2, c: Color, j: nat): real
    requires j < 7
  {
    [p.x, p.y, 0.0, c.r, c.g, c.b, c.a][j]
  }

  /** The border mesh for box `b` with vertex `v` in colour `vc[v]`. */
  function BorderMeshOf(b: Box, vc: seq<Color>): (s: seq<real>)
    requires |vc| == 16
    ensures |s| == BorderFloats
  {
    seq(BorderFloats, k requires 0 <= k < BorderFloats => Field7(BorderVertex(b, k / 7), vc[k / 7], k % 7))
  }

  /** Every border vertex in the colour of its edge. */
  function VertexColors(border: Border): (vc: seq<Color>)
    ensures |vc| == 16
  {
    seq(16, v requires 0 <= v < 16 => Colors(border)[v / 4])
  }

  /** The border mesh that describes box `b`. */
  function BorderMesh(b: Box): (s: seq<real>)
    ensures |s| == BorderFloats
  {
    BorderMeshOf(b, VertexColors(b.border))
  }

  /** The position of content vertex `v`: top-left, top-right, bottom-left, bottom-right (12_imgui/src/ui/object.rs:118-121). */
  function ContentVertex(b: Box, v: nat): Vec2
    requires |b.padding| == 4
  {
    match v
    case 0 => Vec2(ContentLeft(b), ContentTop(b))
    case 1 => Vec2(ContentRight(b), ContentTop(b))
    case 2 => Vec2(ContentLeft(b), ContentBottom(b))
    case _ => Vec2(ContentRight(b), ContentBottom(b))
  }

  /** The texture coordinate of content vertex `v`. */
  function TexCoord(v: nat): Vec2
  {
    match v
    case 0 => Vec2(0.0, 1.0)
    case 1 => Vec2(1.0, 1.0)
    case 2 => Vec2(0.0, 0.0)
    case _ => Vec2(1.0, 0.0)
  }

  /** Field `j` of a content vertex at `p` in colour `c` with texture coordinate `t`: x, y, z, r, g, b, a, u, v. */
  function Field9(p: Vec2, c: Color, t: Vec2, j: nat): real
    requires j < 9
  {
    [p.x, p.y, 0.0, c.r, c.g, c.b, c.a, t.x, t.y][j]
  }

  /** The content mesh for box `b` with vertex `v` in colour `vc[v]`. */
  function ContentMeshOf(b: Box, vc: seq<Color>): (s: seq<real>)
    requires |vc| == 4 && |b.padding| == 4
    ensures |s| == ContentFloats
  {
    seq(ContentFloats, k requires 0 <= k < ContentFloats => Field9(ContentVertex(b, k / 9), vc[k / 9], TexCoord(k / 9), k % 9))
  }

  /** The content mesh that describes box `b` with background `bg`. */
  function ContentMesh(b: Box, bg: Color): (s: seq<real>)
    requires |b.padding| == 4
    ensures |s| == ContentFloats
  {
    ContentMeshOf(b, [bg, bg, bg, bg])
  }

  /** Vertex colours `lo .. hi - 1` replaced by `c`. */
  function Recolor(vc: seq<Color>, lo: nat, hi: nat, c: Color): (r: seq<Color>)
    ensures |r| == |vc|
  {
    seq(|vc|, v requires 0 <= v < |vc| => if lo <= v < hi then c else vc[v])
  }

  // ---------------------------------------------------------------------
  // The slot writes of the setters, as functions of the old mesh.

  /** `set_size`'s writes to the border mesh (12_imgui/src/ui/object.rs:243-258). */
  function SizeBorder(s: seq<real>, b: Box): (r: seq<real>)
    requires |s| == BorderFloats
  {
    s[7 := OuterRight(b)][21 := InnerRight(b)][28 := InnerRight(b)][35 := OuterRight(b)]
     [42 := InnerRight(b)][43 := InnerBottom(b)][49 := OuterRight(b)][50 := OuterBottom(b)]
     [57 := InnerBottom(b)][63 := InnerRight(b)][64 := InnerBottom(b)][71 := OuterBottom(b)]
     [77 := OuterRight(b)][78 := OuterBottom(b)][99 := OuterBottom(b)][106 := InnerBottom(b)]
  }

  /** `set_size`'s writes to the content mesh: the right and bottom corners (12_imgui/src/ui/object.rs:260-263). */
  function SizeContent(s: seq<real>, b: Box): (r: seq<real>)
    requires |s| == ContentFloats && |b.padding| == 4
  {
    s[9 := ContentRight(b)][19 := ContentBottom(b)][27 := ContentRight(b)][28 := ContentBottom(b)]
  }

  /** `set_border_size`'s writes to the border mesh: the inner corners (12_imgui/src/ui/object.rs:290-305). */
  function EdgeSizeBorder(s: seq<real>, b: Box): (r: seq<real>)
    requires |s| == BorderFloats
  {
    s[14 := InnerLeft(b)][15 := InnerTop(b)][21 := InnerRight(b)][22 := InnerTop(b)]
     [28 := InnerRight(b)][29 := InnerTop(b)][42 := InnerRight(b)][43 := InnerBottom(b)]
     [56 := InnerLeft(b)][57 := InnerBottom(b)][63 := InnerRight(b)][64 := InnerBottom(b)]
     [91 := InnerLeft(b)][92 := InnerTop(b)][105 := InnerLeft(b)][106 := InnerBottom(b)]
  }

  /**
   * The writes of `set_border_size`, `set_padding` and `reshape` to the
   * content mesh: all four corners (12_imgui/src/ui/object.rs:307-314, 370-377, 410-417).
   */
  function ContentCorners(s: seq<real>, b: Box): (r: seq<real>)
    requires |s| == ContentFloats && |b.padding| == 4
  {
    s[0 := ContentLeft(b)][1 := ContentTop(b)][9 := ContentRight(b)][10 := ContentTop(b)]
     [18 := ContentLeft(b)][19 := ContentBottom(b)][27 := ContentRight(b)][28 := ContentBottom(b)]
  }

  /** `reshape`'s writes to the border mesh: every slot that depends on the box (12_imgui/src/ui/object.rs:385-408). */
  function ReshapeBorder(s: seq<real>, b: Box): (r: seq<real>)
    requires |s| == BorderFloats
  {
    s[7 := OuterRight(b)][14 := InnerLeft(b)][15 := InnerTop(b)][21 := InnerRight(b)]
     [22 := InnerTop(b)][28 := InnerRight(b)][29 := InnerTop(b)][35 := OuterRight(b)]
     [42 := InnerRight(b)][43 := InnerBottom(b)][49 := OuterRight(b)][50 := OuterBottom(b)]
     [56 := InnerLeft(b)][57 := InnerBottom(b)][63 := InnerRight(b)][64 := InnerBottom(b)]
     [71 := OuterBottom(b)][77 := OuterRight(b)][78 := OuterBottom(b)][91 := InnerLeft(b)]
     [92 := InnerTop(b)][99 := OuterBottom(b)][105 := InnerLeft(b)][106 := InnerBottom(b)]
  }

  /** A reshape writes position slots only: every colour, every `z` and every texture coordinate stays. */
  lemma ReshapeKeepsOtherSlots(s: seq<real>, cs: seq<real>, b: Box)
    requires |s| == BorderFloats && |cs| == ContentFloats && |b.padding| == 4
    ensures forall k :: 0 <= k < BorderFloats && !IsBorderPositionSlot(k) ==> ReshapeBorder(s, b)[k] == s[k]
    ensures forall k :: 0 <= k < ContentFloats && !IsContentPositionSlot(k) ==> ContentCorners(cs, b)[k] == cs[k]
  {
    forall k | 0 <= k < BorderFloats && !IsBorderPositionSlot(k)
      ensures ReshapeBorder(s, b)[k] == s[k]
    {
      assert k !in {7, 14, 15, 21, 22, 28, 29, 35, 42, 43, 49, 50, 56, 57, 63, 64, 71, 77, 78, 91, 92, 99, 105, 106};
    }
    forall k | 0 <= k < ContentFloats && !IsContentPositionSlot(k)
      ensures ContentCorners(cs, b)[k] == cs[k]
    {
      assert k !in {0, 1, 9, 10, 18, 19, 27, 28};
    }
  }

  /** Reshaping twice is reshaping once. */
  lemma ReshapeIdempotent(s: seq<real>, cs: seq<real>, b: Box)
    requires |s| == BorderFloats && |cs| == ContentFloats && |b.padding| == 4
    ensures ReshapeBorder(ReshapeBorder(s, b), b) == ReshapeBorder(s, b)
    ensures ContentCorners(ContentCorners(cs, b), b) == ContentCorners(cs, b)
  {
  }

  /** Colour `c` in slots `base + 3 .. base + 6`: one vertex's r, g, b, a. */
  function PaintAt(s: seq<real>, base: nat, c: Color): (r: seq<real>)
    requires base + 6 < |s|
  {
    s[base + 3 := c.r][base + 4 := c.g][base + 5 := c.b][base + 6 := c.a]
  }

  /** Border vertices `lo .. hi - 1` painted with `c`, one after the other. */
  function PaintBorder(s: seq<real>, lo: nat, hi: nat, c: Color): (r: seq<real>)
    requires lo <= hi && 7 * hi <= |s|
    ensures |r| == |s|
    decreases hi
  {
    if lo == hi then s else PaintAt(PaintBorder(s, lo, hi - 1, c), 7 * (hi - 1), c)
  }

  /** Content vertices `0 .. hi - 1` painted with `c`. */
  function PaintContent(s: seq<real>, hi: nat, c: Color): (r: seq<real>)
    requires 9 * hi <= |s|
    ensures |r| == |s|
  {
    if hi == 0 then s else PaintAt(PaintContent(s, hi - 1, c), 9 * (hi - 1), c)
  }

  /** Channel `j` (3 red, 4 green, 5 blue, 6 alpha) of colour `c`. */
  function Channel(c: Color, j: int): real
  {
    if j == 3 then c.r else if j == 4 then c.g else if j == 5 then c.b else c.a
  }

  /**
   * `s` with the colour slots of vertices `lo .. hi - 1` (vertex `v` at
   * `stride * v`, colour at offsets 3 to 6) set to `c`; every other slot kept.
   */
  function Painted(s: seq<real>, stride: nat, lo: nat, hi: nat, c: Color): (r: seq<real>)
    requires 7 <= stride
    ensures |r| == |s|
  {
    seq(|s|, k requires 0 <= k < |s| => if stride * lo <= k < stride * hi && 3 <= k % stride <= 6 then Channel(c, k % stride) else s[k])
  }

  /** Painting border vertices `lo .. hi - 1` writes exactly their colour slots. */
  lemma {:induction false} PaintBorderSpec(s: seq<real>, lo: nat, hi: nat, c: Color)
    requires lo <= hi && 7 * hi <= |s|
    ensures PaintBorder(s, lo, hi, c) == Painted(s, 7, lo, hi, c)
    decreases hi
  {
    if lo == hi {
      assert Painted(s, 7, lo, hi, c) == s;
    } else {
      PaintBorderSpec(s, lo, hi - 1, c);
      var p, r, base := Painted(s, 7, lo, hi - 1, c), Painted(s, 7, lo, hi, c), 7 * (hi - 1);
      forall k | 0 <= k < |s|
        ensures PaintAt(p, base, c)[k] == r[k]
      {
        if base <= k < base + 7 {
          assert k % 7 == k - base;
        }
      }
    }
  }

  /** Painting content vertices `0 .. hi - 1` writes exactly their colour slots. */
  lemma {:induction false} PaintContentSpec(s: seq<real>, hi: nat, c: Color)
    requires 9 * hi <= |s|
    ensures PaintContent(s, hi, c) == Painted(s, 9, 0, hi, c)
  {
    if hi == 0 {
      assert Painted(s, 9, 0, hi, c) == s;
    } else {
      PaintContentSpec(s, hi - 1, c);
      var p, r, base := Painted(s, 9, 0, hi - 1, c), Painted(s, 9, 0, hi, c), 9 * (hi - 1);
      forall k | 0 <= k < |s|
        ensures PaintAt(p, base, c)[k] == r[k]
      {
        if base <= k < base + 9 {
          assert k % 9 == k - base;
        }
      }
    }
  }

  /** Border edge `e` painted with `c` when a colour is given; the mesh unchanged otherwise. */
  function PaintEdge(s: seq<real>, e: nat, c: Option<Color>): (r: seq<real>)
    requires |s| == BorderFloats && e < 4
    ensures |r| == BorderFloats
  {
    if c.Some? then PaintBorder(s, 4 * e, 4 * e + 4, c.value) else s
  }

  // ---------------------------------------------------------------------
  // The meshes built from a box, and what each setter's writes do to them.

  /** A reshape for `b'` turns the border mesh of any box with the same edge colours into the border mesh of `b'`. */
  lemma ReshapeBorderMesh(b: Box, b': Box)
    requires Colors(b'.border) == Colors(b.border)
    ensures ReshapeBorder(BorderMesh(b), b') == BorderMesh(b')
  {
    var s, s' := ReshapeBorder(BorderMesh(b), b'), BorderMesh(b');
    forall k | 0 <= k < BorderFloats
      ensures s[k] == s'[k]
    {
    }
  }

  /** Rewriting the four corners for `b'` turns any box's content mesh into the content mesh of `b'`. */
  lemma CornersMesh(b: Box, b': Box, bg: Color)
    requires |b.padding| == 4 && |b'.padding| == 4
    ensures ContentCorners(ContentMesh(b, bg), b') == ContentMesh(b', bg)
  {
    var c, c' := ContentCorners(ContentMesh(b, bg), b'), ContentMesh(b', bg);
    forall k | 0 <= k < ContentFloats
      ensures c[k] == c'[k]
    {
    }
  }

  /** `set_size`'s writes turn the border mesh of `b` into that of `b` with the new width and height. */
  lemma SizeBorderMesh(b: Box, w: real, h: real)
    ensures SizeBorder(BorderMesh(b), b.(width := w, height := h)) == BorderMesh(b.(width := w, height := h))
  {
    var b' := b.(width := w, height := h);
    var s, s' := SizeBorder(BorderMesh(b), b'), BorderMesh(b');
    forall k | 0 <= k < BorderFloats
      ensures s[k] == s'[k]
    {
    }
  }

  /** `set_size`'s writes turn the content mesh of `b` into that of `b` with the new width and height. */
  lemma SizeContentMesh(b: Box, bg: Color, w: real, h: real)
    requires |b.padding| == 4
    ensures SizeContent(ContentMesh(b, bg), b.(width := w, height := h)) == ContentMesh(b.(width := w, height := h), bg)
  {
    var b' := b.(width := w, height := h);
    var c, c' := SizeContent(ContentMesh(b, bg), b'), ContentMesh(b', bg);
    forall k | 0 <= k < ContentFloats
      ensures c[k] == c'[k]
    {
    }
  }

  /** `set_border_size`'s writes turn the border mesh of `b` into that of `b` with new edge sizes. */
  lemma EdgeSizeBorderMesh(b: Box, border: Border)
    requires Colors(border) == Colors(b.border)
    ensures EdgeSizeBorder(BorderMesh(b), b.(border := border)) == BorderMesh(b.(border := border))
  {
    var b' := b.(border := border);
    var s, s' := EdgeSizeBorder(BorderMesh(b), b'), BorderMesh(b');
    forall k | 0 <= k < BorderFloats
      ensures s[k] == s'[k]
    {
    }
  }

  /** The border mesh does not depend on the padding. */
  lemma PaddingBorderMesh(b: Box, p: seq<real>)
    ensures BorderMesh(b.(padding := p)) == BorderMesh(b)
  {
    var s, s' := BorderMesh(b.(padding := p)), BorderMesh(b);
    forall k | 0 <= k < BorderFloats
      ensures s[k] == s'[k]
    {
    }
  }

  /** Painting one border vertex changes its colour and nothing else. */
  lemma PaintVertexMesh(b: Box, vc: seq<Color>, v: nat, c: Color)
    requires |vc| == 16 && v < 16
    ensures PaintAt(BorderMeshOf(b, vc), 7 * v, c) == BorderMeshOf(b, vc[v := c])
  {
    var s, s' := PaintAt(BorderMeshOf(b, vc), 7 * v, c), BorderMeshOf(b, vc[v := c]);
    forall k | 0 <= k < BorderFloats
      ensures s[k] == s'[k]
    {
      if k / 7 == v {
        assert k == 7 * v + k % 7;
      }
    }
  }

  /** Painting border vertices `lo .. hi - 1` recolours exactly those vertices. */
  lemma {:induction false} PaintBorderMesh(b: Box, vc: seq<Color>, lo: nat, hi: nat, c: Color)
    requires |vc| == 16 && lo <= hi <= 16
    ensures PaintBorder(BorderMeshOf(b, vc), lo, hi, c) == BorderMeshOf(b, Recolor(vc, lo, hi, c))
    decreases hi
  {
    if lo == hi {
      assert Recolor(vc, lo, hi, c) == vc;
    } else {
      PaintBorderMesh(b, vc, lo, hi - 1, c);
      PaintVertexMesh(b, Recolor(vc, lo, hi - 1, c), hi - 1, c);
      assert Recolor(vc, lo, hi - 1, c)[hi - 1 := c] == Recolor(vc, lo, hi, c);
    }
  }

  /** Painting one content vertex changes its colour and nothing else. */
  lemma PaintContentVertexMesh(b: Box, vc: seq<Color>, v: nat, c: Color)
    requires |vc| == 4 && v < 4 && |b.padding| == 4
    ensures PaintAt(ContentMeshOf(b, vc), 9 * v, c) == ContentMeshOf(b, vc[v := c])
  {
    var s, s' := PaintAt(ContentMeshOf(b, vc), 9 * v, c), ContentMeshOf(b, vc[v := c]);
    forall k | 0 <= k < ContentFloats
      ensures s[k] == s'[k]
    {
      if k / 9 == v {
        assert k == 9 * v + k % 9;
      }
    }
  }

  /** Painting content vertices `0 .. hi - 1` recolours exactly those vertices. */
  lemma {:induction false} PaintContentMesh(b: Box, vc: seq<Color>, hi: nat, c: Color)
    requires |vc| == 4 && hi <= 4 && |b.padding| == 4
    ensures PaintContent(ContentMeshOf(b, vc), hi, c) == ContentMeshOf(b, Recolor(vc, 0, hi, c))
  {
    if hi == 0 {
      assert Recolor(vc, 0, hi, c) == vc;
    } else {
      PaintContentMesh(b, vc, hi - 1, c);
      PaintContentVertexMesh(b, Recolor(vc, 0, hi - 1, c), hi - 1, c);
      assert Recolor(vc, 0, hi - 1, c)[hi - 1 := c] == Recolor(vc, 0, hi, c);
    }
  }

  /** `set_background_color`'s writes turn the content mesh in colour `bg` into the one in colour `c`. */
  lemma BackgroundMesh(b: Box, bg: Color, c: Color)
    requires |b.padding| == 4
    ensures PaintContent(ContentMesh(b, bg), 4, c) == ContentMesh(b, c)
  {
    PaintContentMesh(b, [bg, bg, bg, bg], 4, c);
    assert Recolor([bg, bg, bg, bg], 0, 4, c) == [c, c, c, c];
  }

  /** Vertex positions depend on the edge sizes, not on the edge colours. */
  lemma SameSizesMesh(b: Box, border: Border, vc: seq<Color>)
    requires Sizes(border) == Sizes(b.border) && |vc| == 16
    ensures BorderMeshOf(b.(border := border), vc) == BorderMeshOf(b, vc)
  {
    var b' := b.(border := border);
    assert InnerLeft(b') == InnerLeft(b) && InnerTop(b') == InnerTop(b);
    assert InnerRight(b') == InnerRight(b) && InnerBottom(b') == InnerBottom(b);
    var s, s' := BorderMeshOf(b', vc), BorderMeshOf(b, vc);
    forall k | 0 <= k < BorderFloats
      ensures s[k] == s'[k]
    {
      assert BorderVertex(b', k / 7) == BorderVertex(b, k / 7);
    }
  }

  /** The content corners depend on the edge sizes, not on the edge colours. */
  lemma SameSizesContent(b: Box, border: Border, bg: Color)
    requires Sizes(border) == Sizes(b.border) && |b.padding| == 4
    ensures ContentMesh(b.(border := border), bg) == ContentMesh(b, bg)
  {
    var b' := b.(border := border);
    assert ContentLeft(b') == ContentLeft(b) && ContentTop(b') == ContentTop(b);
    assert ContentRight(b') == ContentRight(b) && ContentBottom(b') == ContentBottom(b);
    var s, s' := ContentMesh(b', bg), ContentMesh(b, bg);
    forall k | 0 <= k < ContentFloats
      ensures s[k] == s'[k]
    {
      assert ContentVertex(b', k / 9) == ContentVertex(b, k / 9);
    }
  }

  /**
   * One edge of `set_border_color`: painting edge `e` (when a colour is
   * given) turns the border mesh of `b` into that of `b` with the new
   * border, whose sizes are the same and whose colours differ at most in
   * edge `e`.
   */
  lemma PaintEdgeMesh(b: Box, e: nat, c: Option<Color>, border: Border)
    requires e < 4
    requires Sizes(border) == Sizes(b.border)
    requires Colors(border) == Colors(b.border)[e := Pick(c, Colors(b.border)[e])]
    ensures PaintEdge(BorderMesh(b), e, c) == BorderMesh(b.(border := border))
  {
    var vc := VertexColors(b.border);
    SameSizesMesh(b, border, VertexColors(border));
    if c.Some? {
      PaintBorderMesh(b, vc, 4 * e, 4 * e + 4, c.value);
      RecolorEdge(b.border, border, e, c.value);
    } else {
      assert Colors(border) == Colors(b.border);
    }
  }

  /** Recolouring the four vertices of edge `e` gives the vertex colours of the border whose edge `e` has that colour. */
  lemma RecolorEdge(border: Border, border': Border, e: nat, c: Color)
    requires e < 4 && Colors(border') == Colors(border)[e := c]
    ensures Recolor(VertexColors(border), 4 * e, 4 * e + 4, c) == VertexColors(border')
  {
    var r, r' := Recolor(VertexColors(border), 4 * e, 4 * e + 4, c), VertexColors(border');
    forall v | 0 <= v < 16
      ensures r[v] == r'[v]
    {
      assert (4 * e <= v < 4 * e + 4) == (v / 4 == e);
    }
  }
}
