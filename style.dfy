/**
 * The value types of a widget's look: colours, padding and borders.
 * They are `Copy` structs in the program; their `&mut self` setters are
 * modelled as functions that return the updated copy.
 */
module Style {
  import opened Common

  /** An RGBA colour with channels as reals (`f32` in the program). */
  datatype Color = Color(r: real, g: real, b: real, a: real)

  /** An unsigned byte, the argument type of `from_u8`. */
  type Byte = n: int | 0 <= n < 256

  /** `Color::new`: every channel zero. */
  function NewColor(): (c: Color)
    ensures c.r == 0.0 && c.g == 0.0 && c.b == 0.0 && c.a == 0.0
  {
    Color(0.0, 0.0, 0.0, 0.0)
  }

  predicate InUnit(v: real)
  {
    0.0 <= v <= 1.0
  }

  /** `Color::from_u8`: each byte divided by 255. */
  function FromU8(r: Byte, g: Byte, b: Byte, a: Byte): (c: Color)
    ensures InUnit(c.r) && InUnit(c.g) && InUnit(c.b) && InUnit(c.a)
    ensures c.r * 255.0 == r as real && c.g * 255.0 == g as real
    ensures c.b * 255.0 == b as real && c.a * 255.0 == a as real
  {
    Color(r as real / 255.0, g as real / 255.0, b as real / 255.0, a as real / 255.0)
  }

  lemma FromU8Injective(r: Byte, g: Byte, b: Byte, a: Byte, r': Byte, g': Byte, b': Byte, a': Byte)
    requires FromU8(r, g, b, a) == FromU8(r', g', b', a')
    ensures r == r' && g == g' && b == b' && a == a'
  {
  }

  /** Four per-edge values in the order top, right, bottom, left. */
  datatype Padding = Padding(top: real, right: real, bottom: real, left: real)

  function PaddingNew(): (p: Padding)
    ensures p == PaddingFrom1v(0.0)
  {
    Padding(0.0, 0.0, 0.0, 0.0)
  }

  function PaddingFrom4v(top: real, right: real, bottom: real, left: real): (p: Padding)
    ensures p.top == top && p.right == right && p.bottom == bottom && p.left == left
  {
    Padding(top, right, bottom, left)
  }

  /** Three values: top and bottom share the first. */
  function PaddingFrom3v(topBottom: real, right: real, left: real): (p: Padding)
    ensures p == PaddingFrom4v(topBottom, right, topBottom, left)
  {
    Padding(topBottom, right, topBottom, left)
  }

  /** Two values: top/bottom and right/left. */
  function PaddingFrom2v(topBottom: real, rightLeft: real): (p: Padding)
    ensures p == PaddingFrom3v(topBottom, rightLeft, rightLeft)
  {
    Padding(topBottom, rightLeft, topBottom, rightLeft)
  }

  function PaddingFrom1v(v: real): (p: Padding)
    ensures p == PaddingFrom2v(v, v)
  {
    Padding(v, v, v, v)
  }

  /** Replaces a value when an update is given. */
  function Pick<T>(update: Option<T>, old_: T): T
  {
    if update.Some? then update.value else old_
  }

  /** `Padding::set_4v`: each edge given as `Some` is replaced, the others kept. */
  function PaddingSet4v(p: Padding, top: Option<real>, right: Option<real>, bottom: Option<real>, left: Option<real>): (q: Padding)
    ensures top.Some? ==> q.top == top.value
    ensures top.None? ==> q.top == p.top
    ensures right.Some? ==> q.right == right.value
    ensures right.None? ==> q.right == p.right
    ensures bottom.Some? ==> q.bottom == bottom.value
    ensures bottom.None? ==> q.bottom == p.bottom
    ensures left.Some? ==> q.left == left.value
    ensures left.None? ==> q.left == p.left
  {
    p.(top := Pick(top, p.top), right := Pick(right, p.right), bottom := Pick(bottom, p.bottom), left := Pick(left, p.left))
  }

  function PaddingSet3v(p: Padding, topBottom: Option<real>, right: Option<real>, left: Option<real>): (q: Padding)
    ensures q == PaddingSet4v(p, topBottom, right, topBottom, left)
  {
    var q1 := if topBottom.Some? then p.(top := topBottom.value, bottom := topBottom.value) else p;
    var q2 := if right.Some? then q1.(right := right.value) else q1;
    if left.Some? then q2.(left := left.value) else q2
  }

  function PaddingSet2v(p: Padding, topBottom: Option<real>, rightLeft: Option<real>): (q: Padding)
    ensures q == PaddingSet4v(p, topBottom, rightLeft, topBottom, rightLeft)
  {
    var q1 := if topBottom.Some? then p.(top := topBottom.value, bottom := topBottom.value) else p;
    if rightLeft.Some? then q1.(right := rightLeft.value, left := rightLeft.value) else q1
  }

  function PaddingSet1v(p: Padding, v: real): (q: Padding)
    ensures q == PaddingFrom1v(v)
  {
    p.(top := v, right := v, bottom := v, left := v)
  }

  /** One border edge: the `(f32, Color)` pair of the program. */
  datatype Edge = Edge(size: real, color: Color)

  datatype Border = Border(top: Edge, right: Edge, bottom: Edge, left: Edge)

  /** `Border::new`: zero-width edges with the all-zero colour. */
  function BorderNew(): (b: Border)
    ensures b == BorderFrom1v(Edge(0.0, NewColor()))
  {
    Border(Edge(0.0, NewColor()), Edge(0.0, NewColor()), Edge(0.0, NewColor()), Edge(0.0, NewColor()))
  }

  function BorderFrom4v(top: Edge, right: Edge, bottom: Edge, left: Edge): (b: Border)
    ensures b.top == top && b.right == right && b.bottom == bottom && b.left == left
  {
    Border(top, right, bottom, left)
  }

  function BorderFrom3v(topBottom: Edge, right: Edge, left: Edge): (b: Border)
    ensures b == BorderFrom4v(topBottom, right, topBottom, left)
  {
    Border(topBottom, right, topBottom, left)
  }

  function BorderFrom2v(topBottom: Edge, rightLeft: Edge): (b: Border)
    ensures b == BorderFrom3v(topBottom, rightLeft, rightLeft)
  {
    Border(topBottom, rightLeft, topBottom, rightLeft)
  }

  function BorderFrom1v(e: Edge): (b: Border)
    ensures b == BorderFrom2v(e, e)
  {
    Border(e, e, e, e)
  }

  /**
   * `Border::set_4v`: whole edges replaced where given. It has the shape of
   * `PaddingSet4v` because the program defines the two setters on separate
   * types, `Padding` over sizes and `Border` over edges.
   */
  function BorderSet4v(b: Border, top: Option<Edge>, right: Option<Edge>, bottom: Option<Edge>, left: Option<Edge>): (c: Border)
    ensures top.Some? ==> c.top == top.value
    ensures top.None? ==> c.top == b.top
    ensures right.Some? ==> c.right == right.value
    ensures right.None? ==> c.right == b.right
    ensures bottom.Some? ==> c.bottom == bottom.value
    ensures bottom.None? ==> c.bottom == b.bottom
    ensures left.Some? ==> c.left == left.value
    ensures left.None? ==> c.left == b.left
  {
    b.(top := Pick(top, b.top), right := Pick(right, b.right), bottom := Pick(bottom, b.bottom), left := Pick(left, b.left))
  }

  function BorderSet3v(b: Border, topBottom: Option<Edge>, right: Option<Edge>, left: Option<Edge>): (c: Border)
    ensures c == BorderSet4v(b, topBottom, right, topBottom, left)
  {
    var c1 := if topBottom.Some? then b.(top := topBottom.value, bottom := topBottom.value) else b;
    var c2 := if right.Some? then c1.(right := right.value) else c1;
    if left.Some? then c2.(left := left.value) else c2
  }

  function BorderSet2v(b: Border, topBottom: Option<Edge>, rightLeft: Option<Edge>): (c: Border)
    ensures c == BorderSet4v(b, topBottom, rightLeft, topBottom, rightLeft)
  {
    var c1 := if topBottom.Some? then b.(top := topBottom.value, bottom := topBottom.value) else b;
    if rightLeft.Some? then c1.(right := rightLeft.value, left := rightLeft.value) else c1
  }

  function BorderSet1v(b: Border, e: Edge): (c: Border)
    ensures c == BorderFrom1v(e)
  {
    b.(top := e, right := e, bottom := e, left := e)
  }

  /** Replaces only the size of an edge when one is given. */
  function WithSize(e: Edge, size: Option<real>): Edge
  {
    if size.Some? then e.(size := size.value) else e
  }

  /** Replaces only the colour of an edge when one is given. */
  function WithColor(e: Edge, color: Option<Color>): Edge
  {
    if color.Some? then e.(color := color.value) else e
  }

  /** Sizes of the four edges, in order top, right, bottom, left. */
  function Sizes(b: Border): Padding
  {
    Padding(b.top.size, b.right.size, b.bottom.size, b.left.size)
  }

  /** Colours of the four edges, in order top, right, bottom, left. */
  function Colors(b: Border): seq<Color>
  {
    [b.top.color, b.right.color, b.bottom.color, b.left.color]
  }

  /** `Border::set_size_4v`: sizes replaced where given; every colour kept. */
  function BorderSetSize4v(b: Border, top: Option<real>, right: Option<real>, bottom: Option<real>, left: Option<real>): (c: Border)
    ensures Sizes(c) == PaddingSet4v(Sizes(b), top, right, bottom, left)
    ensures Colors(c) == Colors(b)
  {
    Border(WithSize(b.top, top), WithSize(b.right, right), WithSize(b.bottom, bottom), WithSize(b.left, left))
  }

  function BorderSetSize3v(b: Border, topBottom: Option<real>, right: Option<real>, left: Option<real>): (c: Border)
    ensures c == BorderSetSize4v(b, topBottom, right, topBottom, left)
  {
    var c1 := if topBottom.Some? then b.(top := b.top.(size := topBottom.value), bottom := b.bottom.(size := topBottom.value)) else b;
    var c2 := if right.Some? then c1.(right := c1.right.(size := right.value)) else c1;
    if left.Some? then c2.(left := c2.left.(size := left.value)) else c2
  }

  function BorderSetSize2v(b: Border, topBottom: Option<real>, rightLeft: Option<real>): (c: Border)
    ensures c == BorderSetSize4v(b, topBottom, rightLeft, topBottom, rightLeft)
  {
    var c1 := if topBottom.Some? then b.(top := b.top.(size := topBottom.value), bottom := b.bottom.(size := topBottom.value)) else b;
    if rightLeft.Some? then c1.(right := c1.right.(size := rightLeft.value), left := c1.left.(size := rightLeft.value)) else c1
  }

  function BorderSetSize1v(b: Border, v: real): (c: Border)
    ensures c == BorderSetSize4v(b, Some(v), Some(v), Some(v), Some(v))
  {
    b.(top := b.top.(size := v), right := b.right.(size := v), bottom := b.bottom.(size := v), left := b.left.(size := v))
  }

  /** `Border::set_color_4v`: colours replaced where given; every size kept. */
  function BorderSetColor4v(b: Border, top: Option<Color>, right: Option<Color>, bottom: Option<Color>, left: Option<Color>): (c: Border)
    ensures Sizes(c) == Sizes(b)
    ensures Colors(c) == [Pick(top, b.top.color), Pick(right, b.right.color), Pick(bottom, b.bottom.color), Pick(left, b.left.color)]
  {
    Border(WithColor(b.top, top), WithColor(b.right, right), WithColor(b.bottom, bottom), WithColor(b.left, left))
  }

  /**
   * Edge `e` (0 top, 1 right, 2 bottom, 3 left) takes colour `c` when one
   * is given: one branch of `Object::set_border_color`.
   */
  function SetEdgeColor(b: Border, e: nat, c: Option<Color>): (r: Border)
    requires e < 4
    ensures Sizes(r) == Sizes(b)
    ensures Colors(r) == Colors(b)[e := Pick(c, Colors(b)[e])]
  {
    if e == 0 then b.(top := WithColor(b.top, c))
    else if e == 1 then b.(right := WithColor(b.right, c))
    else if e == 2 then b.(bottom := WithColor(b.bottom, c))
    else b.(left := WithColor(b.left, c))
  }

  /** Recolouring the edges one after the other, top first, is `set_color_4v`. */
  lemma EdgeByEdge(b: Border, top: Option<Color>, right: Option<Color>, bottom: Option<Color>, left: Option<Color>)
    ensures SetEdgeColor(SetEdgeColor(SetEdgeColor(SetEdgeColor(b, 0, top), 1, right), 2, bottom), 3, left)
         == BorderSetColor4v(b, top, right, bottom, left)
  {
  }

  function BorderSetColor3v(b: Border, topBottom: Option<Color>, right: Option<Color>, left: Option<Color>): (c: Border)
    ensures c == BorderSetColor4v(b, topBottom, right, topBottom, left)
  {
    var c1 := if topBottom.Some? then b.(top := b.top.(color := topBottom.value), bottom := b.bottom.(color := topBottom.value)) else b;
    var c2 := if right.Some? then c1.(right := c1.right.(color := right.value)) else c1;
    if left.Some? then c2.(left := c2.left.(color := left.value)) else c2
  }

  function BorderSetColor2v(b: Border, topBottom: Option<Color>, rightLeft: Option<Color>): (c: Border)
    ensures c == BorderSetColor4v(b, topBottom, rightLeft, topBottom, rightLeft)
  {
    var c1 := if topBottom.Some? then b.(top := b.top.(color := topBottom.value), bottom := b.bottom.(color := topBottom.value)) else b;
    if rightLeft.Some? then c1.(right := c1.right.(color := rightLeft.value), left := c1.left.(color := rightLeft.value)) else c1
  }

  function BorderSetColor1v(b: Border, v: Color): (c: Border)
    ensures c == BorderSetColor4v(b, Some(v), Some(v), Some(v), Some(v))
  {
    b.(top := b.top.(color := v), right := b.right.(color := v), bottom := b.bottom.(color := v), left := b.left.(color := v))
  }
}
