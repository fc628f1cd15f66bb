# GUI widget trees, window managers and camera state, in Dafny

This project models the user-interface core of three stages of a Rust
OpenGL learning project, and proves properties of that model.

- **Stage `12_imgui`.** A retained-mode widget library.
  - An `Object` (12_imgui/src/ui/object.rs) is a rectangle with:
    - a border of four edges, each with a size and a colour;
    - padding;
    - a background colour;
    - two vertex buffers, 16 border vertices of 7 floats and 4 content vertices of 9 floats;
    - local, base and global positions;
    - children;
    - hover and press state;
    - four mouse callbacks.
  - A `Window` (12_imgui/src/ui/window.rs) is a frame of five elements: background, content, and close, maximize and minimize buttons. The frame can be moved by its title band and resized by its edges.
  - A `Manager` (12_imgui/src/ui.rs) keeps a stack of window objects, back to front. It does the following:
    - drags the focused one;
    - hit-tests the cursor from the front;
    - raises a pressed window;
    - on a release, pops the focused window when its first child is still pressed. That is the slot where the close button is created, but a press moves the pressed button to the end of the list, so the close button never closes its window (see "## Findings").
- **Stage `12_gui`.** The earlier, simpler stage.
  - A flat coloured quad `Object` with children (12_gui/src/ui/object.rs).
  - A window manager (12_gui/src/ui.rs).
  - An application context that holds a fly camera steered by keys and the mouse (12_gui/src/context.rs).
- **Stage `10_interactive_camera`.** The camera context of an earlier stage (10_interactive_camera/src/context.rs).

## How the model is organised

- **Pure parts are functions over datatypes, with lemmas about them.**
  - `Common`: vectors and the clip-space ratio.
  - `Style`: colours, padding and borders with their constructors and setters.
  - `CameraAngles`: the yaw wrap and the pitch clamp.
  - `Resize`: dragging one edge with a minimum extent.
  - `HitTest`: the front-to-back scan and the hover events it fires.
  - `ChildList`: moving an entry to the end and repairing the indices that pointed into the list; the render sweep that drops closed children.
  - `PositionTree`: how base, local and global positions propagate through a subtree.
  - `Layout`: the two vertex buffers of a 12_imgui object as functions of its box.
- **Objects whose fields the source updates in place are classes.**
  - Each class has a `Valid()` invariant, a `Repr` footprint and `modifies` clauses.
  - The vertex buffers of a 12_imgui object (`verticesBorder`, `verticesContent`) are `array<real>`, written slot by slot as in the source.
  - The vertex buffer of a 12_gui object (`GuiObject.Object.vertices`, the `Vec<f32>` of 12_gui/src/ui/object.rs:13) is a `seq<real>` field. Each write replaces one index of it (`vertices[k := v]`), as the source's indexed stores at 12_gui/src/ui/object.rs:135-138 do.
  - Each method is proved against the functions above. For example, `ImguiObject.Object.SetSize` ends with `verticesBorder[..] == SizeBorder(old(verticesBorder[..]), Box())`.
  - The lemmas in `Layout` then show that those writes turn the buffer for the old box into the buffer for the new one.
- **Whole subtrees are described by two ghost values.**
  - `Snapshot()` holds every node's local, base and global position.
  - `Shape()` holds everything else except the ratios and the buffers: sizes, styles, shading, event state and the children lists.
  - The window and manager methods state both values for every element and window, so what they keep is stated down to the buttons' icons.
- **Loops stay loops.** Examples:
  - the reverse hit-test scan;
  - the search in `delete_window`;
  - the paint loops over vertices;
  - the loops over children that rebase, reshape and render them.
- **Modelling choices:**
  - Coordinates and colours are `real`.
  - A mouse callback is a tagged value (`Callback`) rather than a closure. Running it is a function of the object's look.
  - The `Rc<RefCell<…>>` children of the source are class references. `Valid()` keeps them disjoint.
  - 12_gui/src/ui/window.rs is not part of this model. The 12_gui manager keeps a value for each window: bounds, drag flags, ratio, and a log of the calls it made on that window. Its properties are stated over that log.
- **How 12_imgui/src/ui.rs is mapped.** It calls methods with names that do not match the object file (`objects`, `set_loacl_pos`, `add_object`, a two-argument `create`). The model maps them onto the object model's `children`, `SetLocalPos`, `AddChild` and constructor.
- **Where the source trusts its callers, the model has `requires`.** Examples:
  - a window index in range;
  - a non-zero frame buffer size;
  - in 12_imgui, hover indices that name live windows.

  The source would panic or divide by zero there. The members whose `requires` exclude a panic the source can reach are named under "## Left out".

## Model

A helper method that carries out one step of a loop, or one part of a source function, is covered by the row of the member that calls it. Rows are given for the helpers whose contracts are worth reading on their own.

| member | source | states |
|---|---|---|
| Common.ClipRatio | 12_gui/src/ui.rs:20 | The ratio maps a frame buffer size onto the two-unit clip space: ratio times size is 2 on each axis. |
| Style.NewColor | 12_imgui/src/ui/object.rs:630-632 | A new colour is zero in all four channels. |
| Style.FromU8 | 12_imgui/src/ui/object.rs:636-638 | Each channel is its byte divided by 255, so it lies in [0, 1]. |
| Style.FromU8Injective | 12_imgui/src/ui/object.rs:636-638 | Different bytes give different colours. |
| Style.PaddingNew | 12_imgui/src/ui/object.rs:650-652 | A new padding is the one-value padding of zero: zero on all four sides. |
| Style.PaddingFrom4v | 12_imgui/src/ui/object.rs:653-655 | Top, right, bottom, left are the four arguments in that order. |
| Style.PaddingFrom3v | 12_imgui/src/ui/object.rs:656-658 | Bottom repeats top; right and left are their own arguments. |
| Style.PaddingFrom2v | 12_imgui/src/ui/object.rs:659-661 | Bottom repeats top and left repeats right. |
| Style.PaddingFrom1v | 12_imgui/src/ui/object.rs:662-664 | All four sides take the one value. |
| Style.PaddingSet4v | 12_imgui/src/ui/object.rs:665-670 | A given side is replaced; a side given as none keeps its old value. |
| Style.PaddingSet3v | 12_imgui/src/ui/object.rs:671-678 | It is the four-side setter with bottom sharing top's argument. |
| Style.PaddingSet2v | 12_imgui/src/ui/object.rs:679-688 | It is the four-side setter with top/bottom and right/left sharing arguments. |
| Style.PaddingSet1v | 12_imgui/src/ui/object.rs:689-694 | Every side takes the one value, whatever it was before. |
| Style.BorderNew | 12_imgui/src/ui/object.rs:706-708 | A new border has four zero-sized edges in the zero colour. |
| Style.BorderFrom4v | 12_imgui/src/ui/object.rs:709-711 | The edges are the four arguments, top first. |
| Style.BorderFrom3v | 12_imgui/src/ui/object.rs:712-714 | The bottom edge repeats the top one; right and left are their own arguments. |
| Style.BorderFrom2v | 12_imgui/src/ui/object.rs:715-717 | Bottom repeats top and left repeats right. |
| Style.BorderFrom1v | 12_imgui/src/ui/object.rs:718-720 | All four edges are the one argument. |
| Style.BorderSet4v | 12_imgui/src/ui/object.rs:721-726 | A given edge is replaced; the others stay. |
| Style.BorderSet3v | 12_imgui/src/ui/object.rs:727-734 | It is the four-edge setter with bottom sharing top's argument. |
| Style.BorderSet2v | 12_imgui/src/ui/object.rs:735-744 | It is the four-edge setter with paired arguments. |
| Style.BorderSet1v | 12_imgui/src/ui/object.rs:745-750 | Every edge becomes the one argument, whatever it was before. |
| Style.BorderSetSize4v | 12_imgui/src/ui/object.rs:751-756 | Edge sizes change as the padding setter would change four numbers; every edge keeps its colour. |
| Style.BorderSetSize3v | 12_imgui/src/ui/object.rs:757-764 | It is the four-size setter with bottom sharing top's argument. |
| Style.BorderSetSize2v | 12_imgui/src/ui/object.rs:765-774 | It is the four-size setter with paired arguments. |
| Style.BorderSetSize1v | 12_imgui/src/ui/object.rs:775-780 | It is the four-size setter with one argument for every edge. |
| Style.BorderSetColor4v | 12_imgui/src/ui/object.rs:781-786 | Edge colours change where given; every edge keeps its size. |
| Style.BorderSetColor3v | 12_imgui/src/ui/object.rs:787-794 | It is the four-colour setter with bottom sharing top's argument. |
| Style.BorderSetColor2v | 12_imgui/src/ui/object.rs:795-804 | It is the four-colour setter with paired arguments. |
| Style.BorderSetColor1v | 12_imgui/src/ui/object.rs:805-810 | It is the four-colour setter with one argument for every edge. |
| Style.SetEdgeColor | 12_imgui/src/ui/object.rs:323-331 | One branch of `set_border_color`: only edge `e` takes the colour, and only when one is given. |
| Style.EdgeByEdge | 12_imgui/src/ui/object.rs:322-362 | Setting the edges one at a time, top first, gives the same border as the four-colour setter. |
| CameraAngles.WrapYaw | 12_gui/src/context.rs:241-246 | The result is the yaw itself or the yaw shifted by ±360. It lies in [0, 360] for any yaw within one turn of that range, and a yaw already in range is unchanged. |
| CameraAngles.ClampPitch | 12_gui/src/context.rs:247-252 | The result lies in [-89, 89]. A pitch inside that range is unchanged; one beyond it goes to the nearer limit. |
| CameraAngles.TurnStaysInRange | 10_interactive_camera/src/context.rs:236-249 | A yaw in range stays in [0, 360] after any mouse turn of at most one full circle. |
| CameraAngles.ClampPitchIdempotent | 12_gui/src/context.rs:247-252 | Clamping twice is clamping once. |
| CameraAngles.ClampPitchMonotone | 12_gui/src/context.rs:247-252 | The clamp is order-preserving in the unclamped pitch: a larger pitch before the clamp never gives a smaller one after it. |
| Resize.DragStart | 12_imgui/src/ui/window.rs:195-203 | Dragging a leading edge keeps the far edge where it was. The extent never falls below the floor, and the edge follows the cursor unless the floor stops it. |
| Resize.DragEnd | 12_imgui/src/ui/window.rs:204-210 | Dragging a trailing edge gives the larger of the floor and the distance to the cursor plus the grab gap. |
| Resize.DragStartAtGrab | 12_imgui/src/ui/window.rs:195-203 | With the gap recorded at the press and the cursor not moved, the leading-edge drag changes nothing. |
| Resize.DragEndAtGrab | 12_imgui/src/ui/window.rs:204-210 | With the gap recorded at the press and the cursor not moved, the trailing-edge drag keeps the extent. |
| Resize.DragStartFollowsCursor | 12_imgui/src/ui.rs:168-176 | Away from the floor, the leading edge moves by exactly as much as the cursor. |
| HitTest.TopmostBelow | 12_imgui/src/ui/object.rs:476-483 | The scan returns the largest index whose rectangle holds the point, and no later rectangle holds it. It returns none exactly when no rectangle holds the point. |
| HitTest.TopmostUnique | 12_imgui/src/ui/window.rs:232-239 | The hit is the only index with those properties, so any front-to-back scan agrees with it. |
| HitTest.RepeatedEventFiresNothing | 12_imgui/src/ui/object.rs:484-491 | An enter or leave event fires exactly when the hover changes, so repeating a cursor event fires nothing. |
| HitTest.NoHitOutside | 12_gui/src/ui.rs:97-104 | A point outside every rectangle hovers nothing. |
| ChildList.MoveToEnd | 12_gui/src/ui.rs:33-34 | `remove(i)` then `push`: the result is a permutation of the list. The moved entry is last, the entries before it stay, and the ones after it shift down by one. |
| ChildList.FixIndex | 12_gui/src/ui.rs:36-50 | The repaired hover index is none exactly when it was none, and an index in range stays in range. |
| ChildList.FixIndexFollowsEntry | 12_imgui/src/ui.rs:295-309 | After the move, the repaired index names the same entry it named before. |
| ChildList.FixIndexInjective | 12_imgui/src/ui/object.rs:589-611 | Two different hover indices stay different after the repair. |
| ChildList.Rank | 12_imgui/src/ui/object.rs:429-437 | The number of open entries before position `i` is at most `i`. |
| ChildList.KeepOpen | 12_imgui/src/ui/object.rs:429-437 | The swept list is as long as the number of open children; the lemmas below place each one. |
| ChildList.KeepOpenAt | 12_imgui/src/ui/object.rs:429-437 | An open child at `i` sits at its rank in the swept list. |
| ChildList.RankStrict | 12_imgui/src/ui/object.rs:429-437 | Two open children keep their relative order after the sweep. |
| ChildList.KeepOpenOnlyOpen | 12_imgui/src/ui/object.rs:429-437 | Every entry of the swept list is an open original child whose rank is its new position. |
| ChildList.RemapIndex | 12_imgui/src/ui/object.rs:429-437 | A remapped hover index always lies inside the swept list. |
| ChildList.RemapIndexFollowsEntry | 12_imgui/src/ui/object.rs:429-437 | The remapped hover index names the same child after the sweep. |
| ChildList.ClosedIndices | 12_imgui/src/ui/object.rs:429-434 | Every collected index is a position of a closed child. |
| ChildList.SweepAsWrittenWithOneClosed | 12_imgui/src/ui/object.rs:429-437 | With at most one closed child, the sweep as written equals the intended one. |
| ChildList.SweepAsWrittenDropsOpenChild | 12_imgui/src/ui/object.rs:429-437 | On `[closed, closed, open]` the sweep as written removes the open child and keeps a closed one. |
| ChildList.SweepAsWrittenPanics | 12_imgui/src/ui/object.rs:429-437 | On `[open, closed, closed]` the sweep as written removes past the end of the list. |
| ChildList.SweepAsWrittenLeavesHoverStale | 12_imgui/src/ui/object.rs:429-437 | The source does not adjust the hover indices after the sweep. With a closed child in front of the hovered one, the old index names the next child, or no child, while `RemapIndex` names the hovered child. |
| PositionTree.RebaseCoherent | 12_imgui/src/ui/object.rs:217-233 | After `set_base_pos` on an axis, the node has that base and its whole subtree is coherent on that axis: each global is base plus local, and each child's base is its parent's global. |
| PositionTree.RebaseKeepsOther | 12_imgui/src/ui/object.rs:217-233 | Rebasing one axis leaves the other axis and every local position untouched. |
| PositionTree.RebaseCoherentIsIdentity | 12_imgui/src/ui/object.rs:217-233 | Rebasing a coherent subtree onto its own base changes nothing. |
| PositionTree.RebaseIdempotent | 12_imgui/src/ui/object.rs:217-233 | Rebasing twice to the same value is rebasing once. |
| PositionTree.SetBaseSpec | 12_imgui/src/ui/object.rs:217-233 | Each given axis takes its value and becomes coherent. An axis given as none keeps all its positions, and local positions never change. |
| PositionTree.RelocateCoherent | 12_imgui/src/ui/object.rs:199-215 | After `set_local_pos` on an axis, the node has that local position and the same base. Its subtree is coherent on the axis, and the other axis keeps its positions. |
| PositionTree.SetLocalSpec | 12_imgui/src/ui/object.rs:199-215 | Each given axis takes its value and becomes coherent. An axis given as none keeps its positions, and the base never changes. |
| PositionTree.RebaseBothIsSetBase | 12_gui/src/ui/object.rs:152-160 | The earlier stage's two-axis `set_base_pos` equals the later stage's setter with both axes given. |
| PositionTree.RelocateBothIsSetLocal | 12_gui/src/ui/object.rs:113-121 | The earlier stage's `set_loacl_pos` equals the later stage's `set_local_pos` with both axes given. |
| PositionTree.BothCoherent | 12_gui/src/ui/object.rs:113-121 | Both setters of the earlier stage leave the subtree coherent on both axes, with the given base or local position. |
| PositionTree.SetBaseTwice | 12_imgui/src/ui/object.rs:217-233 | Two `set_base_pos` calls are one call in which an axis the second call gives wins. |
| PositionTree.SetLocalTwice | 12_imgui/src/ui/object.rs:199-215 | Two `set_local_pos` calls are one call in which an axis the second call gives wins. |
| PositionTree.RelocateTwice | 12_imgui/src/ui/object.rs:199-215 | Relocating one axis twice is relocating it once, to the second value. |
| PositionTree.RelocateCommute | 12_imgui/src/ui/object.rs:199-215 | Relocating the two axes in either order gives the same tree. |
| Layout.ReshapeKeepsOtherSlots | 12_imgui/src/ui/object.rs:383-426 | `reshape` writes position slots only. Every colour, depth and texture-coordinate slot keeps its value. |
| Layout.ReshapeIdempotent | 12_imgui/src/ui/object.rs:383-426 | Reshaping twice for the same box is reshaping once. |
| Layout.ReshapeBorderMesh | 12_imgui/src/ui/object.rs:385-408 | The reshape writes turn a border buffer drawn for any box into the border buffer of the new box. |
| Layout.CornersMesh | 12_imgui/src/ui/object.rs:410-417 | Rewriting the four content corners turns any box's content buffer into that of the new box. |
| Layout.SizeBorderMesh | 12_imgui/src/ui/object.rs:242-258 | `set_size`'s border writes give exactly the border buffer of the box with the new width and height. |
| Layout.SizeContentMesh | 12_imgui/src/ui/object.rs:259-263 | `set_size`'s content writes give exactly the content buffer of the resized box. |
| Layout.EdgeSizeBorderMesh | 12_imgui/src/ui/object.rs:288-305 | `set_border_size`'s writes give exactly the border buffer with the new edge sizes. |
| Layout.PaddingBorderMesh | 12_imgui/src/ui/object.rs:364-381 | The border buffer does not depend on the padding, so `set_padding` leaves it alone. |
| Layout.PaintBorderSpec | 12_imgui/src/ui/object.rs:323-331 | Painting border vertices `lo..hi-1` writes exactly their four colour slots and nothing else. |
| Layout.PaintContentSpec | 12_imgui/src/ui/object.rs:273-278 | Painting content vertices writes exactly their colour slots. |
| Layout.PaintVertexMesh | 12_imgui/src/ui/object.rs:323-331 | Painting one border vertex is the buffer with that vertex's colour replaced. |
| Layout.PaintBorderMesh | 12_imgui/src/ui/object.rs:323-331 | Painting a run of border vertices is the buffer with those vertices recoloured. |
| Layout.PaintContentVertexMesh | 12_imgui/src/ui/object.rs:273-278 | Painting one content vertex is the buffer with that vertex's colour replaced. |
| Layout.PaintContentMesh | 12_imgui/src/ui/object.rs:273-278 | Painting the first content vertices is the buffer with those vertices recoloured. |
| Layout.BackgroundMesh | 12_imgui/src/ui/object.rs:270-282 | `set_background_color`'s loop turns the content buffer in the old colour into the one in the new colour. |
| Layout.SameSizesMesh | 12_imgui/src/ui/object.rs:322-362 | Border vertex positions depend on the edge sizes, never on the edge colours. |
| Layout.SameSizesContent | 12_imgui/src/ui/object.rs:322-362 | The content buffer does not depend on the edge colours. |
| Layout.PaintEdgeMesh | 12_imgui/src/ui/object.rs:322-362 | Painting edge `e` turns the border buffer of a box into that of the box whose edge `e` has the new colour. |
| Layout.RecolorEdge | 12_imgui/src/ui/object.rs:322-362 | Recolouring the four vertices of edge `e` gives the vertex colours of the border with edge `e` recoloured. |
| GuiObject.Mesh | 12_gui/src/ui/object.rs:36-41 | The buffer holds four vertices, top-left, top-right, bottom-left, bottom-right, of the object's stride. |
| GuiObject.PaintedSlot | 12_gui/src/ui/object.rs:130-143 | After painting the first `n` vertices, a slot holds the colour channel exactly when it is a colour slot of one of those vertices; every other slot keeps its value. |
| GuiObject.RecoloredMesh | 12_gui/src/ui/object.rs:130-143 | Recolouring a quad gives the same quad in the new colour; corners and texture coordinates stay. |
| GuiObject.MeshCorners | 12_gui/src/ui/object.rs:162-173 | The right x and the bottom y of a quad can be read back from its second and third vertex. |
| GuiObject.RecoloredKeepsShape | 12_gui/src/ui/object.rs:130-143 | Any buffer that holds some quad still holds that quad after a recolour. |
| GuiObject.ReshapedMesh | 12_gui/src/ui/object.rs:162-173 | The four slot writes of `reshape` turn a quad into the same quad, in the same colour, with the new corners. |
| GuiObject.Object.Create | 12_gui/src/ui/object.rs:29-65 | A new object is 20 by 20, white, at the origin, untextured, with no children. Its ratio maps the frame buffer onto clip space, and its buffer draws its own quad. |
| GuiObject.Object.EnableTexture | 12_gui/src/ui/object.rs:67-84 | The object becomes textured. The buffer switches to the 9-float layout of the same quad. |
| GuiObject.Object.DisableTexture | 12_gui/src/ui/object.rs:86-105 | The buffer goes back to the 7-float layout of the same quad, and the texture handle is kept. |
| GuiObject.Object.PushObject | 12_gui/src/ui/object.rs:107-111 | The child is appended and based at the parent's global position. The parent's position tree gains that child's rebased tree. Everything else in both trees stays (`Attrs`): every node's ratio, size, colour, buffer and children, the pushed child's descendants included. |
| GuiObject.Object.Adopt | 12_gui/src/ui/object.rs:109 | The object becomes the last child and the footprint grows by its own. The position tree and the attributes gain the child's as their last branch and are otherwise unchanged. |
| GuiObject.Object.SetLocalPos | 12_gui/src/ui/object.rs:113-121 | The position tree becomes its relocation to the given point, coherent on both axes. Every node's ratio, size, colour, buffer and children stay (`Attrs`). |
| GuiObject.Object.SetBasePos | 12_gui/src/ui/object.rs:152-160 | The position tree becomes its rebasing onto the given point, coherent on both axes. Every node's ratio, size, colour, buffer and children stay (`Attrs`). |
| GuiObject.Object.RebaseObjects | 12_gui/src/ui/object.rs:156-158 | Every child subtree is rebased onto the given point, and every child keeps its non-position state (`AttrsOf`). |
| GuiObject.Object.RebaseObject | 12_gui/src/ui/object.rs:157 | One step of that loop: only child `i` is rebased, and every child keeps its non-position state. |
| GuiObject.Object.SetSize | 12_gui/src/ui/object.rs:123-128 | The size is stored and the buffer is reshaped for it. A buffer that held its quad holds the quad of the new size, and every node of the subtree is at the object's ratio. Positions stay (`Snapshot`), and so does every node's shape (`Shape`: size, colour, texture state, children) except the object's own size. |
| GuiObject.Object.Reshape | 12_gui/src/ui/object.rs:162-173 | The buffer takes the corners for the current size and ratio. Every node of the subtree ends at the object's ratio; every node's position (`Snapshot`) and shape (`Shape`: size, colour, texture state, children) stay. |
| GuiObject.Object.ReshapeObjects | 12_gui/src/ui/object.rs:169-172 | Every child subtree ends at the parent's ratio; every child keeps its positions and shape. |
| GuiObject.Object.ReshapeObject | 12_gui/src/ui/object.rs:170-171 | One step of that loop: child `i` ends at the ratio, no other child changes whether it is at the ratio, and positions and shapes stay. |
| GuiObject.Object.SetColor | 12_gui/src/ui/object.rs:130-143 | The colour is the bytes over 255, and the buffer holds the same quad in that colour. |
| GuiObject.Object.PaintVertices | 12_gui/src/ui/object.rs:135-141 | The loop writes the colour into the colour slots of the four vertices and nowhere else. |
| GuiObject.Object.PaintVertex | 12_gui/src/ui/object.rs:136-139 | The buffer becomes `PaintAt` of the old one: vertex `index` takes the colour in its slots 3 to 6, and no other slot changes. |
| GuiManager.MoveStep | 12_gui/src/ui.rs:60-62 | A window held by its title moves by the cursor delta; one not held stays. |
| GuiManager.TopStep | 12_gui/src/ui.rs:63-71 | Dragging the top edge keeps the bottom edge where it was. The height never goes below zero. |
| GuiManager.RightStep | 12_gui/src/ui.rs:72-77 | Dragging the right edge keeps the left edge. The width grows by the delta but not below zero. |
| GuiManager.BottomStep | 12_gui/src/ui.rs:78-83 | Dragging the bottom edge keeps the top edge. The height grows by the delta but not below zero. |
| GuiManager.LeftStep | 12_gui/src/ui.rs:84-91 | Dragging the left edge keeps the right edge. The width never goes below zero. |
| GuiManager.Dragged | 12_gui/src/ui.rs:60-92 | One cursor step applies the move and the four edge steps, and logs a reshape of the window; the drag flags stay. |
| GuiManager.DragWhileMoving | 12_gui/src/ui.rs:60-62 | While the title is held, the window's size is unchanged and its corner moves by exactly the delta. |
| GuiManager.DragAtRest | 12_gui/src/ui.rs:60-92 | A window holding nothing keeps its bounds; it only logs a reshape. |
| GuiManager.AtRestKeepsBounds | 12_gui/src/ui.rs:60-92 | While the focused window is at rest, one cursor event leaves every window's bounds unchanged, so a second event at the same place hovers the same window and fires no enter or leave. |
| GuiManager.DraggedAlong | 12_gui/src/ui.rs:55-93 | The drag parts of a run of cursor events: the windows below the focused one are untouched, every window keeps its id, frame, ratio and flags, and the focused window logs one reshape per event. |
| GuiManager.AtRestKeepsBoundsAlong | 12_gui/src/ui.rs:55-93 | While the focused window is at rest, any number of cursor events in a row leave every window's bounds unchanged. |
| GuiManager.ClampIsNotUndone | 12_gui/src/ui.rs:63-71 | A height clamped at zero is not restored by the reverse drag: height 10 with its top dragged down by 30 gives 0, and dragging back up by 30 gives 30, not 10. |
| GuiManager.BoundsOf | 12_gui/src/ui.rs:97-104 | The hit-test rectangles are the windows' bounds, in order. |
| GuiManager.Notified | 12_gui/src/ui.rs:97-118 | The cursor event logs at most the hit window's cursor call and the enter and leave calls. Windows not involved get no new calls. |
| GuiManager.TellTwice | 12_gui/src/ui.rs:106-116 | Two calls logged on one window appear in the order they were made. |
| GuiManager.CallsInTwoRounds | 12_gui/src/ui.rs:97-118 | For one window, the calls of the hit round of a cursor event followed by those of its hover round are the calls of the whole event. |
| GuiManager.NotifiedInTwoRounds | 12_gui/src/ui.rs:97-118 | Logging the hit round and then the hover round of one cursor event gives every window the calls of the whole event, the cursor call before enter and leave. |
| GuiManager.CursorCallsOnce | 12_gui/src/ui.rs:97-118 | The hit window gets a cursor call exactly when there is a hit. It gets an enter exactly when the hit differs from the previous hover. The previous window gets a leave exactly when it was hovered and is no longer. The hit is the topmost window under the cursor. |
| GuiManager.Manager.Create | 12_gui/src/ui.rs:17-24 | A new manager has no windows and no hover, and its ratio maps the frame buffer onto clip space. |
| GuiManager.Manager.PushWindow | 12_gui/src/ui.rs:26-29 | The window is appended and the others stay. |
| GuiManager.Manager.ToFrontWindow | 12_gui/src/ui.rs:31-52 | The window moves to the end. Each hover index still names the window it named before. |
| GuiManager.Manager.RaiseWindow | 12_gui/src/ui.rs:33-34 | The windows are the old ones with the given one moved to the end. |
| GuiManager.Manager.RepairHover | 12_gui/src/ui.rs:36-50 | Both hover indices become their repaired values for the move. |
| GuiManager.Manager.OnCursorPosEvent | 12_gui/src/ui.rs:54-119 | The focused window is dragged. The hover becomes the topmost window under the cursor, using the bounds after the drag. Each window's log gains exactly its notifications, and the previous hover becomes the current one. |
| GuiManager.Manager.DraggedAll | 12_gui/src/ui.rs:55-93 | The drag part of one cursor event: the windows below the focused one are untouched, every window keeps its id, frame, ratio and flags, and the focused window logs one reshape. |
| GuiManager.Manager.DragFocused | 12_gui/src/ui.rs:55-93 | Only the last window is dragged; the others are unchanged. |
| GuiManager.Manager.DragWindow | 12_gui/src/ui.rs:60-92 | The window becomes its dragged value. |
| GuiManager.Manager.ResizeTop | 12_gui/src/ui.rs:63-71 | The focused window's bounds follow the top-edge step. |
| GuiManager.Manager.ResizeRight | 12_gui/src/ui.rs:72-77 | The focused window's bounds follow the right-edge step. |
| GuiManager.Manager.ResizeBottom | 12_gui/src/ui.rs:78-83 | The focused window's bounds follow the bottom-edge step. |
| GuiManager.Manager.ResizeLeft | 12_gui/src/ui.rs:84-91 | The focused window's bounds follow the left-edge step. |
| GuiManager.Manager.HitWindow | 12_gui/src/ui.rs:97-104 | The backward scan returns the topmost window whose bounds hold the cursor. |
| GuiManager.Manager.FireHover | 12_gui/src/ui.rs:106-116 | Enter and leave calls are logged exactly when the hover changes. |
| GuiManager.Manager.OnMouseDownEvent | 12_gui/src/ui.rs:121-147 | A press raises the hovered window and logs its press. A release logs the releases and clears the focused window's move and resize flags. |
| GuiManager.Manager.PressWindow | 12_gui/src/ui.rs:123-128 | The pressed window's log gains the press and it moves to the end. The hover names it, and the previous hover follows its window. |
| GuiManager.Manager.ReleaseAll | 12_gui/src/ui.rs:133-145 | Exactly the hovered window logs a release. The focused window is left holding nothing, and nothing else changes. |
| GuiManager.Manager.ReleaseWindow | 12_gui/src/ui.rs:133-137 | Only the released window's log changes. |
| GuiManager.Manager.SettleFocused | 12_gui/src/ui.rs:139-145 | The last window's move flag and four resize flags are cleared. |
| GuiManager.Manager.OnFrameBufferSizeEvent | 12_gui/src/ui.rs:149-158 | The frame buffer size and ratio are stored. Every window gets the new ratio and logs a reshape. |
| GuiContext.KeySlot | 12_gui/src/context.rs:213-223 | Exactly the six movement keys have a slot, each below 6. |
| GuiContext.KeySlotInjective | 12_gui/src/context.rs:213-223 | Two different keys never share a slot. |
| GuiContext.AsU32 | 12_gui/src/context.rs:225-228 | The `as u32` cast: a non-negative size is kept and a negative one wraps modulo 2^32. |
| GuiContext.NoKeyNoMove | 12_gui/src/context.rs:174-192 | With no key held, the camera does not move. |
| GuiContext.ForwardBackCancel | 12_gui/src/context.rs:174-192 | Holding forward and back together leaves the position as if neither were held. |
| GuiContext.LeftRightCancel | 12_gui/src/context.rs:174-192 | Holding left and right together cancels. |
| GuiContext.UpDownCancel | 12_gui/src/context.rs:174-192 | Holding up and down together cancels. |
| GuiContext.Context.constructor | 12_gui/src/context.rs:152-167 | The camera starts at (0, 0, 4) looking down -z with right +x and zero angles. No key is held and the mouse does not steer. |
| GuiContext.Context.MoveCamera | 12_gui/src/context.rs:174-192 | The position moves by speed times frame time, 2.5 units per second, along each held key's direction; nothing else changes. |
| GuiContext.Context.OnKeyEvent | 12_gui/src/context.rs:213-223 | A movement key's flag takes the event's down state; the other flags stay, and other keys change nothing. |
| GuiContext.Context.OnFrameBufferSizeEvent | 12_gui/src/context.rs:225-228 | The stored size is the new size cast to `u32`. The camera and the cursor stay as they were. |
| GuiContext.Context.OnCursorPosEvent | 12_gui/src/context.rs:230-255 | Without camera control only the cursor is stored. With control, the yaw turns and is wrapped, the pitch turns and is clamped, and the cursor becomes the previous one. The camera's position, front and right vectors stay as they were. |
| GuiContext.Context.OnMouseDownEvent | 12_gui/src/context.rs:257-260 | Camera control is on exactly while the button is down, and the previous cursor is reset to the current one so the next move does not jump. The angles, position, front and right vectors stay as they were. |
| InteractiveCamera.Context.constructor | 10_interactive_camera/src/context.rs:160-172 | The context starts with the given size, zero angles, the cursor at the origin and no mouse control. |
| InteractiveCamera.Context.Reshape | 10_interactive_camera/src/context.rs:221-224 | The stored width and height become the new ones. |
| InteractiveCamera.Context.MouseMove | 10_interactive_camera/src/context.rs:226-253 | Without control nothing but the cursor changes. With control, the angles turn by 0.1 degree per pixel, wrapped and clamped into range, and the cursor becomes the previous one. |
| InteractiveCamera.Context.MouseButtonEvent | 10_interactive_camera/src/context.rs:256-266 | Only the right button matters. A release ends control; a press or repeat starts it, with the previous cursor at the current one. |
| ImguiObject.HoverViews | 12_imgui/src/ui/object.rs:484-491 | The entered child, if any, runs its enter callback and the left one its leave callback. Every other child and every rectangle stays. |
| ImguiObject.PressAt | 12_imgui/src/ui/object.rs:511-519 | The pressed child is marked pressed; the others stay. |
| ImguiObject.ReleaseAt | 12_imgui/src/ui/object.rs:521-528 | The released child is no longer pressed; the others stay. |
| ImguiObject.WithCallback | 12_imgui/src/ui/object.rs:529-548 | Each setter replaces its own callback and leaves the other three. |
| ImguiObject.InstalledCallbackRuns | 12_imgui/src/ui/object.rs:495-528 | After a callback is installed, the matching mouse event runs it. |
| ImguiObject.QuietHoverKeepsViews | 12_imgui/src/ui/object.rs:484-491 | A cursor event that keeps the same hover changes no child. |
| ImguiObject.Object.Create | 12_imgui/src/ui/object.rs:56-189 | A new object has zero size and positions, a white background, a default border, zero padding and no texture. It has no children, no hover and no-op callbacks, and its buffers draw its box. |
| ImguiObject.Object.NewBuffer | 12_imgui/src/ui/object.rs:90-122 | Returns a fresh array whose contents are exactly the given mesh. |
| ImguiObject.Object.SetSize | 12_imgui/src/ui/object.rs:235-269 | A given width or height is stored, a none is kept. The buffers receive `set_size`'s writes, which draw the resized box. |
| ImguiObject.Object.SetBackgroundColor | 12_imgui/src/ui/object.rs:270-282 | The background is stored. The four content vertices take its colour, and the border buffer is untouched. |
| ImguiObject.Object.PaintBackground | 12_imgui/src/ui/object.rs:273-278 | The loop paints the first four content vertices. |
| ImguiObject.Object.SetBorderSize | 12_imgui/src/ui/object.rs:283-320 | The edge sizes change as the border setter says. The inner border corners and the content corners are rewritten for the new box. |
| ImguiObject.Object.SetBorderColor | 12_imgui/src/ui/object.rs:322-362 | The edge colours change as the border setter says, and each given edge's four vertices are painted. |
| ImguiObject.Object.ColorEdge | 12_imgui/src/ui/object.rs:323-331 | One edge's colour and its vertices change. |
| ImguiObject.Object.PaintEdgeSlots | 12_imgui/src/ui/object.rs:325-330 | The loop paints that edge's four vertices. |
| ImguiObject.Object.SetPadding | 12_imgui/src/ui/object.rs:364-381 | Given sides are replaced. Only the content corners are rewritten; the border buffer is untouched. |
| ImguiObject.Object.WriteSizeSlots | 12_imgui/src/ui/object.rs:242-263 | The slot writes of `set_size`. |
| ImguiObject.Object.StoreSize | 12_imgui/src/ui/object.rs:236-263 | The width and height take the given values, and the two buffers become the `set_size` rewrite (`SizeBorder`, `SizeContent`) of their old contents for the new box. |
| ImguiObject.Object.WriteEdgeSlots | 12_imgui/src/ui/object.rs:290-305 | The border buffer becomes `EdgeSizeBorder` of its old contents for the box: the inner corners move to the edge sizes and no other slot changes. |
| ImguiObject.Object.WriteCornerSlots | 12_imgui/src/ui/object.rs:307-314 | The content buffer becomes `ContentCorners` of its old contents for the box: the four content corners move inside the borders and padding, and no other slot changes. The same writes close `set_padding` (370-377) and `reshape` (410-417). |
| ImguiObject.Object.WriteReshapeSlots | 12_imgui/src/ui/object.rs:385-408 | The border buffer becomes `ReshapeBorder` of its old contents for the box: every slot that depends on the box takes its value for that box, and no other slot changes. |
| ImguiObject.Object.SetBasePos | 12_imgui/src/ui/object.rs:217-233 | The position tree becomes `SetBase` of the old one: given axes rebased and coherent, the rest unchanged. Everything but positions stays in every node of the subtree (`Attrs`): sizes, styles, buffers, callbacks, pressed and hover state. |
| ImguiObject.Object.RebaseAxis | 12_imgui/src/ui/object.rs:218-224 | The tree is rebased on one axis, children included. Everything but positions stays in every node (`Attrs`). |
| ImguiObject.Object.StoreBase | 12_imgui/src/ui/object.rs:219-220 | On the given axis the base position takes the value and the global position becomes that value plus the local position; the other axis stays. |
| ImguiObject.Object.SetLocalPos | 12_imgui/src/ui/object.rs:199-215 | The position tree becomes `SetLocal` of the old one. Everything but positions stays in every node of the subtree (`Attrs`). |
| ImguiObject.Object.RelocateAxis | 12_imgui/src/ui/object.rs:200-206 | The tree is relocated on one axis. Everything but positions stays in every node (`Attrs`). |
| ImguiObject.Object.StoreLocal | 12_imgui/src/ui/object.rs:201-202 | On the given axis the local position takes the value and the global position becomes the base position plus that value; the other axis stays. |
| ImguiObject.Object.AddChild | 12_imgui/src/ui/object.rs:191-197 | A fresh, valid child is appended with the next id, the given name and the parent's ratio. It is based at the parent's global position, and the child count goes up by one. |
| ImguiObject.Object.NewChild | 12_imgui/src/ui/object.rs:192-193 | Returns a fresh, valid, childless node with the given id, name and ratio, drawn for its box, whose local position is zero and whose base and global positions are the given point. |
| ImguiObject.Object.Adopt | 12_imgui/src/ui/object.rs:194-195 | The subtree becomes the last child, the child count grows by one and the footprint by the child's. The parent's position tree gains the child's as its last branch and is otherwise unchanged. |
| ImguiObject.Object.RebaseChildren | 12_imgui/src/ui/object.rs:218-224 | Every child's subtree is rebased onto the parent's global position, and every child subtree keeps everything but its positions (`AttrsOf`). |
| ImguiObject.Object.RebaseChild | 12_imgui/src/ui/object.rs:221-223 | One step of that loop: only child `i` is rebased on the axis, and every child keeps its non-position state (`AttrsOf`). |
| ImguiObject.Object.Reshape | 12_imgui/src/ui/object.rs:383-426 | Both buffers are rewritten to draw the current box at the ratio, and every node of the subtree ends at the object's ratio. Every node's position (`Snapshot`) and shape (`Shape`: size, style, shading, event state and children) stay. |
| ImguiObject.Object.Relayout | 12_imgui/src/ui/object.rs:384-417 | The object's own buffers are rewritten for its box. |
| ImguiObject.Object.ReshapeChildren | 12_imgui/src/ui/object.rs:422-425 | Every child subtree ends at the parent's ratio. The children's positions (`Snapshots`) and shapes (`ShapesIn`) stay, descendants included. |
| ImguiObject.Object.ReshapeChild | 12_imgui/src/ui/object.rs:423-424 | One step of that loop: child `i`'s subtree ends at the parent's ratio, no other child changes whether it is at the ratio or drawn, and positions and shapes stay. |
| ImguiObject.Object.Rescale | 12_imgui/src/ui/object.rs:423-424 | The child takes the ratio and reshapes: its whole subtree ends at that ratio, and its view, positions and shape stay. |
| ImguiObject.Object.BringToFront | 12_imgui/src/ui/object.rs:589-611 | On a non-empty list, the child moves to the end and both hover indices follow their children. On an empty list nothing changes. |
| ImguiObject.Object.MoveChild | 12_imgui/src/ui/object.rs:591-610 | The children and their views are moved to the end as a whole. The hover indices are repaired. |
| ImguiObject.Object.Reorder | 12_imgui/src/ui/object.rs:592-609 | The child list becomes `MoveToEnd` of the old one at the index, and both hover indices are repaired by `FixIndex` so they name the same children. The footprint, the fixed fields, the look and the cursors stay. |
| ImguiObject.Object.Render | 12_imgui/src/ui/object.rs:428-472 | Closed children are dropped and the open ones kept in order. Each kept child keeps its view: its look, rectangle and callbacks are those of the child it was before the sweep, taken through the same `KeepOpen`. Each hover index names its child again, or none if that child was closed; the source leaves the indices alone (see "## Findings"). Every remaining child renders in turn, and the object's own fields and buffers stay. |
| ImguiObject.Object.KeptViews | 12_imgui/src/ui/object.rs:429-437 | The views of the children the sweep keeps are the kept entries of the views before it. |
| ImguiObject.Object.SweepClosed | 12_imgui/src/ui/object.rs:429-437 | After the sweep, no child is closed, and the children's views are the kept entries of the old views. |
| ImguiObject.Object.CollectClosed | 12_imgui/src/ui/object.rs:429-434 | Returns each child's closed flag. |
| ImguiObject.Object.RenderChildren | 12_imgui/src/ui/object.rs:469-471 | Every child subtree ends swept, and no child's view changes. |
| ImguiObject.Object.RenderChild | 12_imgui/src/ui/object.rs:470 | Child `i` ends valid and swept. No child's `closed` flag changes, every other child stays valid and keeps whether it is swept, and no child's view changes. |
| ImguiObject.Object.OnCursorPosEvent | 12_imgui/src/ui/object.rs:474-494 | The hover becomes the topmost child under the cursor. The children see exactly the enter and leave events of that change, and the hover and cursor are recorded for the next event. The subtree's positions (`Snapshot`), the node's own look and fixed fields, and its `Form` stay. `Form` is every node's shape with the looks, pressed flags, hover indices and cursors masked out. |
| ImguiObject.Object.ScanHit | 12_imgui/src/ui/object.rs:476-483 | The backward scan returns the topmost child whose rectangle holds the cursor. |
| ImguiObject.Object.CursorChildren | 12_imgui/src/ui/object.rs:480-491 | The hit child's event and the hover change act on the children as `HoverViews` says. The children's positions and forms stay. |
| ImguiObject.Object.CursorChild | 12_imgui/src/ui/object.rs:480 | The hit child's own cursor event keeps the children list, and leaves the children's views, positions and forms as they were. |
| ImguiObject.Object.OnChild | 12_imgui/src/ui/object.rs:486 | Only child `i`'s view changes, and only its look: it becomes the entered look for its callbacks (`Entered`). The children's positions and forms stay. |
| ImguiObject.Object.OffChild | 12_imgui/src/ui/object.rs:489 | Only child `i`'s view changes, and only its look: it becomes the left look for its callbacks (`Left`). The children's positions and forms stay. |
| ImguiObject.Object.RecordHover | 12_imgui/src/ui/object.rs:492-493 | The hit becomes the current and previous hover. |
| ImguiObject.Object.Record | 12_imgui/src/ui/object.rs:492-493 | The current and previous hover both become the hit, and both cursors the given point. The footprint, children, fixed fields and look stay. |
| ImguiObject.Object.Fire | 12_imgui/src/ui/object.rs:495-528 | Running a callback changes only the background colour as the callback says. |
| ImguiObject.Object.MouseOn | 12_imgui/src/ui/object.rs:495-498 | The object's look becomes its entered look. |
| ImguiObject.Object.MouseOff | 12_imgui/src/ui/object.rs:500-509 | The look becomes the left look. A hovered child is left and the hover cleared. The subtree's positions and form, the fixed fields and the cursors stay. |
| ImguiObject.Object.Unpress | 12_imgui/src/ui/object.rs:503 | The node is no longer pressed. Its positions, its form and its children's views stay. |
| ImguiObject.Object.ReleaseHovered | 12_imgui/src/ui/object.rs:504-507 | When a child was hovered at the previous event, that child is left (`HoverViews` with only a leave) and the current hover is cleared; otherwise nothing changes. The previous hover, positions, forms, the node's look and its buffers stay. |
| ImguiObject.Object.MouseDown | 12_imgui/src/ui/object.rs:510-519 | The look becomes the pressed look. A hovered child is pressed and raised to the end, and the hover indices follow. With no hovered child the children, the hover and their views stay. The positions become `PressedPos` and the form `PressedForm` of the old ones: the subtree is reordered along the hover path and nothing else in it changes. The fixed fields and the cursors stay. |
| ImguiObject.Object.PressChild | 12_imgui/src/ui/object.rs:514-517 | The hovered child is pressed and moved to the front: the children, views, positions and forms are `MoveToEnd` of the pressed ones, the hover names the last child and the previous hover is repaired by `FixIndex`. The node's own fields and buffers stay. |
| ImguiObject.Object.DownChild | 12_imgui/src/ui/object.rs:515 | Child `i` is pressed (`PressAt`); its positions become `PressedPos` and its form `PressedForm` of its old positions and shape. The other children stay. |
| ImguiObject.Object.MouseUp | 12_imgui/src/ui/object.rs:520-528 | The look becomes the released look, and the hovered child, if any, is released. The children, the hover, the fixed fields, the cursors, the positions and the form stay. |
| ImguiObject.Object.ReleaseHoveredUp | 12_imgui/src/ui/object.rs:524-526 | The hovered child, if any, is released (`ReleaseAt`); with no hover the views stay. The children's positions and forms stay. |
| ImguiObject.Object.UpChild | 12_imgui/src/ui/object.rs:525 | Child `i` is released (`ReleaseAt`), and the children's positions and forms stay. |
| ImguiObject.PressedFormReorders | 12_imgui/src/ui/object.rs:510-519 | A press only reorders: the node keeps its own fields, its child list is a permutation of the old one, the number of its subtrees stays, and the hovered child ends up last. |
| ImguiObject.PressedAlike | 12_imgui/src/ui/object.rs:510-519 | The press reads only the hover index and the subtrees of the shape it follows: two shapes that agree there give the same reordered positions and forms. |
| ImguiObject.Object.SetMouseEvent | 12_imgui/src/ui/object.rs:529-549 | The chosen callback is replaced, and nothing else changes. |
| ImguiObject.Object.SetShaderType | 12_imgui/src/ui/object.rs:550-559 | The shader type is stored. A texture exists exactly when the type is not colour-only. |
| ImguiObject.Object.EnableTexture | 12_imgui/src/ui/object.rs:568-576 | The object has a texture afterwards; nothing else changes. |
| ImguiObject.Object.DisableTexture | 12_imgui/src/ui/object.rs:577-588 | The object has no texture afterwards; nothing else changes. |
| ImguiWindow.Faces | 12_imgui/src/ui/window.rs:188-250 | The looks and callbacks of the elements, which moving and resizing leave alone. |
| ImguiWindow.FacesOfHover | 12_imgui/src/ui/window.rs:240-247 | A hover change acts on looks and callbacks alone, whatever the rectangles. |
| ImguiWindow.Armed | 12_imgui/src/ui/window.rs:269-290 | A press sets the move and resize flags to where the cursor is on the frame. |
| ImguiWindow.ArmedSpec | 12_imgui/src/ui/window.rs:269-290 | The title band arms the move alone. Each edge band arms its own edge. Elsewhere nothing is armed, and the grab gap is recorded. |
| ImguiWindow.TopDragged | 12_imgui/src/ui/window.rs:195-203 | The bottom edge stays where it was and the height is at least the minimum. |
| ImguiWindow.LeftDragged | 12_imgui/src/ui/window.rs:218-226 | The right edge stays and the width is at least the minimum. |
| ImguiWindow.DraggedSpec | 12_imgui/src/ui/window.rs:190-226 | A title drag moves the frame to the cursor minus the gap, and each held edge follows its step. Frames whose grip holds nothing do not change. |
| ImguiWindow.GrabAndHoldIsStill | 12_imgui/src/ui/window.rs:190-290 | Pressing and then moving the cursor nowhere leaves the frame exactly where it was. |
| ImguiWindow.BandsApart | 12_imgui/src/ui/window.rs:270-289 | Opposite edge bands never both hold the cursor. The title band excludes all edge bands. |
| ImguiWindow.SetBaseEach | 12_imgui/src/ui/window.rs:126-137 | Every element tree becomes its `set_base_pos`. |
| ImguiWindow.Window.SetPos | 12_imgui/src/ui/window.rs:126-137 | The position is stored, and every element subtree is rebased onto it (`Snapshots` by `SetBaseEach`), the buttons' icons included. Every node keeps its shape (`Shapes`: sizes, styles, event state, children); looks and button anchors stay. |
| ImguiWindow.Window.StorePos | 12_imgui/src/ui/window.rs:127-132 | The corner takes the given point. Every element keeps its positions, shapes and views, so the rebasing that follows is the only change the elements see. |
| ImguiWindow.Window.RebaseElements | 12_imgui/src/ui/window.rs:130-135 | The loop rebases each element on the given axes. |
| ImguiWindow.Window.RebaseElement | 12_imgui/src/ui/window.rs:133-135 | One step of that loop: only element `i` is rebased (`SetBase`); its size and local position, every shape and every face stay, and so do the window's own fields. |
| ImguiWindow.SetBaseEachTwice | 12_imgui/src/ui/window.rs:126-137 | Two `set_pos` calls rebase the elements as one call in which an axis the second call gives wins. |
| ImguiWindow.SetBaseEachSplit | 12_imgui/src/ui/window.rs:195-226 | Rebasing down and then across is rebasing on both axes at once. |
| ImguiWindow.Window.SetContentSize | 12_imgui/src/ui/window.rs:139-153 | The content size is stored, and the background grows with it by the borders and title. Every element keeps its positions (`Snapshots`). Only the background and content elements change shape, to the sizes the layout asks for (`Fit`); the buttons and their icons keep theirs. |
| ImguiWindow.Window.SetBackgroundSize | 12_imgui/src/ui/window.rs:155-169 | The background size is stored, and the content follows it. Every element keeps its positions (`Snapshots`). Only the background and content elements change shape, to the sizes the layout asks for (`Fit`); the buttons and their icons keep theirs. |
| ImguiWindow.Window.FitWidth | 12_imgui/src/ui/window.rs:139-169 | The background becomes the given width and the layout invariant holds again. Positions stay (`Snapshots`); only the background and content elements change shape (`Fit`). |
| ImguiWindow.Window.FitHeight | 12_imgui/src/ui/window.rs:139-169 | The background becomes the given height and the layout invariant holds again, and the widths stay. Positions stay (`Snapshots`); only the background and content elements change shape (`Fit`). |
| ImguiWindow.Window.StretchWidth | 12_imgui/src/ui/window.rs:155-161 | The given-width branch of `set_background_size`: the background takes the width, the content follows, positions stay, and only the background and content change shape (`Fit`). |
| ImguiWindow.Window.StretchHeight | 12_imgui/src/ui/window.rs:162-167 | The given-height branch: the background takes the height, the content follows, positions stay, and only the background and content change shape (`Fit`). |
| ImguiWindow.Window.StoreWidths | 12_imgui/src/ui/window.rs:157-159 | The window's background and content widths take the given values. The elements' positions, shapes and views stay. |
| ImguiWindow.Window.StoreHeights | 12_imgui/src/ui/window.rs:163-165 | The window's background and content heights take the given values. The elements' positions, shapes and views stay. |
| ImguiWindow.Window.ResizeFrame | 12_imgui/src/ui/window.rs:158-166 | The background and content take each given extent and keep each omitted one (`Pick`). The element shapes become `Fitted` to those two boxes. Every position, every face, the buttons' places and the three buttons stay. |
| ImguiWindow.Window.ResizeElement | 12_imgui/src/ui/window.rs:142-166 | One `set_size` on element `i`: its width and height become the given ones, positions and faces stay, and only its own shape's size changes. |
| ImguiWindow.FittedTwice | 12_imgui/src/ui/window.rs:139-169 | Fitting the shapes to one size and then to another is fitting them to the second. |
| ImguiWindow.Window.Reshape | 12_imgui/src/ui/window.rs:171-176 | Every element subtree ends at the window's ratio. The element views, every node's position (`Snapshots`) and every node's shape (`Shapes`) stay. |
| ImguiWindow.Window.ReshapeElement | 12_imgui/src/ui/window.rs:172-175 | One step of that loop: element `i` ends at the window's ratio, no other element changes whether it is at it, and views, positions and shapes stay. |
| ImguiWindow.Window.Render | 12_imgui/src/ui/window.rs:178-185 | Every element renders and ends swept. Each element's children are exactly its old open children, in their old order (`KeepOpen` of the old children and their old `closed` flags). The window stays valid, and the elements' views and the buttons' places stay. |
| ImguiWindow.Window.RenderElement | 12_imgui/src/ui/window.rs:182-184 | Element `i` ends swept, and its children are its old open children in order. Every other element keeps its children, their `closed` flags and whether it is swept. The window stays valid, with the same views and button places. |
| ImguiWindow.Window.OnCursorPosEvent | 12_imgui/src/ui/window.rs:188-250 | The frame is dragged as `Dragged` says. The element subtrees are rebased onto the new corner on each moved axis and, after a resize, the buttons go back to their slots (`Snapshots` by `Moved` and `Anchored`). The hover becomes the topmost element, and the elements see exactly the hover change. The elements' forms are the old ones with the background and content resized as `Fit` says. |
| ImguiWindow.Window.TrackHover | 12_imgui/src/ui/window.rs:232-249 | The element hover part of the event: the hover becomes the topmost element under the cursor, and the views change exactly as `HoverViews` says. The positions, forms and anchors stay. |
| ImguiWindow.Window.HoverAfter | 12_imgui/src/ui/window.rs:232-249 | The hover part after the drag: the hover becomes the topmost element, and the looks and callbacks change as `HoverViews` says. The positions, forms, anchors and the frame stay. |
| ImguiWindow.Window.HitElement | 12_imgui/src/ui/window.rs:232-239 | Returns the topmost element under the cursor. The hit element's cursor event leaves the views, anchors, positions and forms as they were. |
| ImguiWindow.Window.CursorElement | 12_imgui/src/ui/window.rs:236 | The hit element's own cursor event leaves the window valid, and leaves the element views, positions, forms and button places as they were. |
| ImguiWindow.Window.FollowCursor | 12_imgui/src/ui/window.rs:190-231 | The drag, then the button anchoring: the frame follows `Dragged`, and the element subtrees are rebased as `Moved` says and then anchored as `Anchored` says. The looks and callbacks stay, and the shapes are the old ones resized as `Fit` says. |
| ImguiWindow.Window.DragAndAnchor | 12_imgui/src/ui/window.rs:190-231 | The drag and the anchoring from the frame and grip at the event's start: the frame follows `Dragged`, the elements are rebased as `Moved` says and anchored after a resize, and only the background and content change shape (`Fit`). |
| ImguiWindow.Window.DragFrame | 12_imgui/src/ui/window.rs:190-226 | The frame becomes its dragged value. The element subtrees are rebased as `Moved` says, the background and content take the fitted sizes (`Fit`), and every other node keeps its shape. |
| ImguiWindow.Window.FollowTitle | 12_imgui/src/ui/window.rs:192-194 | A held title band moves the frame to the cursor minus the gap, and every element subtree is rebased onto the new corner (`SetBaseEach`). Every node keeps its shape. |
| ImguiWindow.Window.DragTop | 12_imgui/src/ui/window.rs:195-203 | A held top edge follows `TopDragged`. The element subtrees are rebased down onto the new top (`SetBaseEach`), and only the background and content change shape (`Fit`). |
| ImguiWindow.Window.PullTop | 12_imgui/src/ui/window.rs:196-202 | With the top edge held, the frame becomes `TopDragged` of the old one for the cursor, the gap and the minimum height. The elements are rebased down onto the new top (`SetBaseEach` on y), their shapes are `Fit`, and faces and button places stay. |
| ImguiWindow.Window.DragRight | 12_imgui/src/ui/window.rs:204-210 | A held right edge follows the trailing-edge drag. Every position stays, and only the background and content change shape (`Fit`). |
| ImguiWindow.Window.DragBottom | 12_imgui/src/ui/window.rs:211-217 | A held bottom edge follows the trailing-edge drag. Every position stays, and only the background and content change shape (`Fit`). |
| ImguiWindow.Window.DragLeft | 12_imgui/src/ui/window.rs:218-226 | A held left edge follows `LeftDragged`. The element subtrees are rebased across onto the new left (`SetBaseEach`), and only the background and content change shape (`Fit`). |
| ImguiWindow.Window.PullLeft | 12_imgui/src/ui/window.rs:219-225 | With the left edge held, the frame becomes `LeftDragged` of the old one for the cursor, the gap and the minimum width. The elements are rebased across onto the new left (`SetBaseEach` on x), their shapes are `Fit`, and faces and button places stay. |
| ImguiWindow.Window.DragEdges | 12_imgui/src/ui/window.rs:195-226 | The four edge steps in order: the frame follows `EdgesDragged`, the elements are rebased on each axis whose start edge moved, and only the background and content change shape. |
| ImguiWindow.Window.DragSides | 12_imgui/src/ui/window.rs:204-226 | The right, bottom and left steps: the frame follows `EndsDragged` and then `LeftDragged` if the left edge is held. |
| ImguiWindow.Window.DragEnds | 12_imgui/src/ui/window.rs:204-217 | The right and bottom steps: the frame follows `EndsDragged` and every position stays. |
| ImguiWindow.Window.ResizeAndMove | 12_imgui/src/ui/window.rs:197-201 | A `set_background_size` and then a `set_pos`: the size and corner become the given ones, the elements are rebased (`SetBaseEach`), and only the background and content change shape. |
| ImguiWindow.Window.AnchorButtons | 12_imgui/src/ui/window.rs:227-231 | Each button is moved across to its slot for the current width by `set_local_pos`, its icon following (`Snapshots` by `Anchored`). Every node keeps its shape, and the window's own fields stay. |
| ImguiWindow.Window.AnchorIfResizing | 12_imgui/src/ui/window.rs:227-231 | With an edge held the buttons are anchored as `AnchorButtons` says; otherwise the anchors and positions stay. Faces, shapes and the frame stay. |
| ImguiWindow.Window.AnchorOuterButtons | 12_imgui/src/ui/window.rs:229-230 | The maximize and minimize buttons go to their slots by `set_local_pos`; the close button, every shape and face, and the window's own fields stay. |
| ImguiWindow.Window.RelocateElement | 12_imgui/src/ui/window.rs:228-230 | One `set_local_pos` on element `i`: it takes the local x, its subtree follows (`SetLocal`), and every shape and the window's own fields stay. |
| ImguiWindow.Window.ScanElements | 12_imgui/src/ui/window.rs:232-239 | The backward scan returns the topmost element. |
| ImguiWindow.Window.HoverElements | 12_imgui/src/ui/window.rs:240-247 | Enter and leave run exactly as `HoverViews` says. The anchors, positions and forms stay. |
| ImguiWindow.Window.Rehover | 12_imgui/src/ui/window.rs:240-248 | The hover change for a hit: enter and leave run as `HoverViews` says, and the hit becomes the current and previous hover. The anchors, positions and forms stay. |
| ImguiWindow.Window.EnterElement | 12_imgui/src/ui/window.rs:242 | Only element `i`'s view changes, and only its look: it becomes the entered look for that element's callbacks (`Entered`). Positions, forms and button places stay. |
| ImguiWindow.Window.LeaveElement | 12_imgui/src/ui/window.rs:245 | Only element `i`'s view changes, and only its look: it becomes the left look for that element's callbacks (`Left`). Positions, forms and button places stay. |
| ImguiWindow.Window.MouseOn | 12_imgui/src/ui/window.rs:252-257 | The hovered element, if any, is entered as `HoverViews` says. The anchors, positions and forms stay. |
| ImguiWindow.Window.MouseOff | 12_imgui/src/ui/window.rs:259-265 | The hovered element, if any, is left and the hover cleared. The anchors, positions and forms stay. |
| ImguiWindow.Window.Unhover | 12_imgui/src/ui/window.rs:263 | The element hover becomes none. Views, positions, shapes, forms and button places stay. |
| ImguiWindow.Window.MouseDown | 12_imgui/src/ui/window.rs:267-294 | A press on the background arms the drag as `Armed` says. The hovered element is pressed: its positions become `PressedPos` and its form `PressedForm` of the old ones. Every other element's positions and form, and the anchors, stay. |
| ImguiWindow.Window.Arm | 12_imgui/src/ui/window.rs:269-290 | The grip becomes `Armed` of the old one. |
| ImguiWindow.Window.Grab | 12_imgui/src/ui/window.rs:269-290 | Over the background the grip becomes `Armed` of the old one for the frame, the cursor and the borders; over any other element, or none, it stays. The elements do not change at all. |
| ImguiWindow.Window.PressElement | 12_imgui/src/ui/window.rs:291-293 | Element `i` is pressed (`PressAt`). Its positions become `PressedPos` and its form `PressedForm` of its old positions and shape, so the child it hovered moves to the front. The other elements and the button places stay. |
| ImguiWindow.Window.MouseUp | 12_imgui/src/ui/window.rs:296-304 | The hovered element is released. The window is marked closed exactly when the close button was pressed and is released. The anchors, positions and forms stay. |
| ImguiWindow.Window.CloseIfPressed | 12_imgui/src/ui/window.rs:298-300 | The window is closed afterwards exactly when it was closed before, or the close button is hovered and pressed. The elements do not change. |
| ImguiWindow.Window.ReleaseElement | 12_imgui/src/ui/window.rs:301-303 | Element `i` is released (`ReleaseAt`), and every position and form stays. |
| ImguiManager.IdsOf | 12_imgui/src/ui.rs:135-140 | The ids of the windows, in order. |
| ImguiManager.LastWithId | 12_imgui/src/ui.rs:135-140 | Returns the last index holding the id, or none exactly when no window has it. |
| ImguiManager.RemoveAt | 12_imgui/src/ui.rs:142 | `Vec::remove`: earlier entries stay, later ones move down by one. |
| ImguiManager.TopHauled | 12_imgui/src/ui.rs:168-176 | The bottom edge captured at the event's start stays, and the height is at least the minimum. |
| ImguiManager.LeftHauled | 12_imgui/src/ui.rs:191-199 | The captured right edge stays, and the width is at least the minimum. |
| ImguiManager.HauledSpec | 12_imgui/src/ui.rs:161-199 | The title drag moves the frame, each held edge follows its step, and a grip at rest keeps the frame. |
| ImguiManager.HoldStill | 12_imgui/src/ui.rs:161-252 | Pressing a window and moving the cursor nowhere leaves its frame where it was. |
| ImguiManager.ReleasedAt | 12_imgui/src/ui.rs:254-256 | The hovered window, if any, is released; the others stay. |
| ImguiManager.ReleaseTwice | 12_imgui/src/ui.rs:254-256 | Releasing the same window twice is releasing it once. |
| ImguiManager.Manager.Create | 12_imgui/src/ui.rs:40-75 | A new manager has no windows, no hover and zero cursor. Its ratio maps the frame buffer onto clip space, and its close button is twice as wide as the others. |
| ImguiManager.Manager.DeleteWindow | 12_imgui/src/ui.rs:134-146 | The last window with the id is removed and the count drops by one. Without such a window nothing changes. The hover indices are left as they were, as in the source. |
| ImguiManager.Manager.FindWindow | 12_imgui/src/ui.rs:135-141 | The forward scan returns the last index with the id. |
| ImguiManager.Manager.RemoveWindow | 12_imgui/src/ui.rs:142-143 | The window leaves the list and the count drops by one. |
| ImguiManager.Manager.OnFrameBufferSizeEvent | 12_imgui/src/ui.rs:282-288 | The ratio is recomputed, and every window ends at it. Every window's view, every node's position (`Snapshots`) and every node's shape (`Shapes`) stay. The stored frame-buffer size is not updated, as in the source. |
| ImguiManager.Manager.ReshapeWindow | 12_imgui/src/ui.rs:285-286 | One step of that loop: window `i` ends at the ratio, no other window changes whether it is at it, and views, positions and shapes stay. |
| ImguiManager.Manager.ToFrontWindow | 12_imgui/src/ui.rs:290-311 | On a non-empty list, the window moves to the end and both hover indices follow their windows. |
| ImguiManager.Manager.RaiseWindow | 12_imgui/src/ui.rs:292-309 | The windows, their views, snapshots, shapes and forms move as `MoveToEnd` says. Both hover indices are repaired as `FixIndex` says. |
| ImguiManager.Manager.OnCursorPosEvent | 12_imgui/src/ui.rs:157-226 | If none of its buttons is pressed, the focused window's frame follows the drag and its subtree follows `HauledTree`; in the forms only that window's own size changes. Otherwise the forms stay. The windows below it keep their positions and rectangles. The hover becomes the topmost window under the cursor, and the windows see exactly the hover change. |
| ImguiManager.Manager.DragFocused | 12_imgui/src/ui.rs:158-207 | The drag part: the focused window's frame follows `Hauled` and its subtree `HauledTree`; in its shape only the window's own size changes. The windows below it keep their views, positions (`Snapshots`) and shapes (`Shapes`), and no window's look or callbacks change. |
| ImguiManager.Manager.PlaceCursor | 12_imgui/src/ui.rs:158 | The cursor is stored; views, positions, shapes, and the focused window's frame and grip stay. |
| ImguiManager.Manager.HaulIfGrabbable | 12_imgui/src/ui.rs:159-206 | With no button pressed the focused window is hauled as `Haul` says; otherwise its frame, positions and shape stay. The windows below keep their views, positions and shapes. |
| ImguiManager.Manager.HaulFocused | 12_imgui/src/ui.rs:161-205 | The focused window is hauled; the windows below it keep their views, positions and shapes. |
| ImguiManager.HauledTreeSpec | 12_imgui/src/ui.rs:161-205 | After the drag the window keeps its base; its local position is the new corner on each axis that moved; after a resize the buttons sit across at their slots with their local y kept; every other child keeps its local position, so it only follows the window. |
| ImguiManager.KidsAnchoredSpec | 12_imgui/src/ui.rs:200-205 | Anchoring moves the three buttons across to their slots, keeps their local y, and leaves the window and its other children alone. |
| ImguiManager.Manager.Haul | 12_imgui/src/ui.rs:161-205 | The frame becomes `Hauled` of the old one. The window's subtree follows `HauledTree`: the window is moved by `set_local_pos`, its children with it, and after a resize the buttons sit at their slots. In its shape only the window's own size changes. |
| ImguiManager.Manager.HaulCorner | 12_imgui/src/ui.rs:165-176 | The title and top steps: the frame follows them, the subtree is relocated by `SetLocal` on the axes they move, and only the window's size changes in its shape. |
| ImguiManager.Manager.HaulSides | 12_imgui/src/ui.rs:177-199 | The right, bottom and left steps: the frame follows them, the subtree is relocated across when the left edge is held, and only the window's size changes in its shape. |
| ImguiManager.Manager.HaulTitle | 12_imgui/src/ui.rs:165-167 | A held title moves the frame to the cursor minus the gap. The subtree is relocated there by `SetLocal`, and the shape is kept. |
| ImguiManager.Manager.HaulTop | 12_imgui/src/ui.rs:168-176 | A held top edge follows `TopHauled`. The subtree is relocated down by `SetLocal`; only the window's own size changes in its shape. |
| ImguiManager.Manager.HaulRight | 12_imgui/src/ui.rs:177-183 | A held right edge follows the trailing-edge drag from the captured left. Positions stay; only the window's own size changes in its shape. |
| ImguiManager.Manager.HaulBottom | 12_imgui/src/ui.rs:184-190 | A held bottom edge follows the trailing-edge drag from the captured top. Positions stay; only the window's own size changes in its shape. |
| ImguiManager.Manager.HaulLeft | 12_imgui/src/ui.rs:191-199 | A held left edge follows `LeftHauled`. The subtree is relocated across by `SetLocal`; only the window's own size changes in its shape. |
| ImguiManager.Manager.AnchorIfResized | 12_imgui/src/ui.rs:200-205 | After a resize each button is moved across to its slot for the new width (`KidsAnchored`), its icon following; otherwise the positions stay. The window's own fields and every node's shape stay. |
| ImguiManager.Manager.AnchorButtons | 12_imgui/src/ui.rs:200-205 | The three buttons go to their slots for the window's width (`KidsAnchored`); the window's own fields and every shape stay. |
| ImguiManager.Manager.AnchorButton | 12_imgui/src/ui.rs:202-204 | One `set_loacl_pos` on button `k`: it takes the local x and its subtree follows (`SetLocal`); the other children, the window's own fields and every shape stay. |
| ImguiManager.Manager.TrackHover | 12_imgui/src/ui.rs:208-225 | The window hover part of the event: the hover becomes the topmost window and the views change as `HoverViews` says. The positions, the forms and the focused frame stay. |
| ImguiManager.Manager.HoverAfter | 12_imgui/src/ui.rs:208-225 | The hover part after the drag: the hover becomes the topmost window, and the views change as `HoverViews` says. The positions, the forms and the focused frame stay. |
| ImguiManager.Manager.HitWindow | 12_imgui/src/ui.rs:208-215 | Returns the topmost window under the cursor. The hit window's cursor event leaves the views, positions, forms and the focused frame as they were. |
| ImguiManager.Manager.ScanWindows | 12_imgui/src/ui.rs:209-215 | Returns the topmost window whose half-open rectangle holds the cursor (`Topmost` over the window rectangles), or none. |
| ImguiManager.Manager.CursorWindow | 12_imgui/src/ui.rs:212 | The hit window's own cursor event leaves the manager valid, and leaves the window views, positions and forms as they were. |
| ImguiManager.Manager.HoverWindows | 12_imgui/src/ui.rs:216-223 | Enter and leave run exactly as `HoverViews` says. The positions, the forms and the focused frame stay. |
| ImguiManager.Manager.EnterWindow | 12_imgui/src/ui.rs:218 | Only window `i`'s view changes, and only its look: it becomes the entered look (`Entered`). Positions and forms stay. |
| ImguiManager.Manager.LeaveWindow | 12_imgui/src/ui.rs:221 | Only window `i`'s view changes, and only its look: it becomes the left look (`Left`). Positions and forms stay. |
| ImguiManager.Manager.RecordHover | 12_imgui/src/ui.rs:224-225 | The hit becomes the current and previous hover. |
| ImguiManager.Manager.OnMouseDownEvent | 12_imgui/src/ui.rs:228-280 | A press over no window changes nothing: the windows, both hover indices, views, positions, shapes and forms stay. A press on window `i` leaves `PressedOnCursor`: the window moves to the end and becomes the hover, and the previous hover is repaired by `FixIndex`. Its grip is armed at the cursor and it is pressed, with views by `PressAt`, positions by `PressedPos` and form by `PressedForm`. The other windows keep their positions, shapes and forms in the new order. A release releases the hovered window and disarms the focused one. The focused window is popped exactly when its first child is still pressed after the release (`CloseArmed`); after a press on the close button that child is another button (see "## Findings"). The release keeps the hover, the positions and, apart from the focused window's cleared drag flags (`Settled`), the forms, cut to the windows that remain. It keeps the previous hover unless the window is popped. |
| ImguiManager.Manager.PressHovered | 12_imgui/src/ui.rs:229-253 | The press branch: `PressedOnCursor` holds. Over no window nothing changes; over window `i` the window is raised, armed and pressed as `PressWindow` says. |
| ImguiManager.Manager.PressWindow | 12_imgui/src/ui.rs:230-253 | The window moves to the end and becomes the hover; the previous hover is repaired by `FixIndex` to name the window it named. Its grip is armed at the cursor and it is pressed: its positions become `PressedPos` and its form `PressedForm` of the old ones, with its new drag flags. The other windows keep their positions, shapes and forms, moved as `MoveToEnd` says. |
| ImguiManager.Manager.RaiseHovered | 12_imgui/src/ui.rs:231 | The hovered window goes on top and stays hovered. The windows, views, positions, shapes and forms move as `MoveToEnd` says, and the previous hover is repaired by `FixIndex`. |
| ImguiManager.Manager.PressFocused | 12_imgui/src/ui.rs:232-253 | The focused window is armed, then pressed: its positions become `PressedPos` and its form `PressedForm` of the old ones, with its new drag flags. The other windows' positions, shapes and forms and both hover indices stay. |
| ImguiManager.HeldCommutes | 12_imgui/src/ui.rs:232-253 | Arming and pressing commute: the press neither reads nor writes the drag flags of the pressed window. |
| ImguiManager.Manager.Arm | 12_imgui/src/ui.rs:233-252 | The window's grip becomes `Armed` of its frame at the cursor. Its positions stay, and its shape and form change only in the drag flags (`Held`). |
| ImguiManager.Manager.ArmFocused | 12_imgui/src/ui.rs:232-252 | The focused window is armed as `Armed` says; its frame and positions stay, and in the forms only its drag flags change. |
| ImguiManager.Manager.SetHold | 12_imgui/src/ui.rs:234-251 | The window's drag flags and the manager's gap take the grip's values. The frame and positions stay, and the shape and form change only in the drag flags. |
| ImguiManager.Manager.DownFocused | 12_imgui/src/ui.rs:253 | The focused window is pressed and its grip kept: its positions become `PressedPos` and its form `PressedForm` of the old ones. The other windows' positions, shapes and forms stay. |
| ImguiManager.Manager.ReleaseAll | 12_imgui/src/ui.rs:254-279 | The hovered window is released and the focused one is left at rest with its buttons up. Exactly when its first child stays pressed through the release (`CloseArmed`), it is popped and the previous hover forgotten; otherwise the previous hover stays. The positions stay. The forms stay apart from the focused window's cleared drag flags (`Settled`), cut to the windows that remain. |
| ImguiManager.Manager.UpHovered | 12_imgui/src/ui.rs:254-256 | The hovered window is released; the focused window's first child stays pressed exactly when `CloseArmed` held. The positions and forms stay. |
| ImguiManager.Manager.UpWindow | 12_imgui/src/ui.rs:255 | Window `i` is released (views by `ReleaseAt`); the positions and forms stay, and its first child stays pressed unless its hover is on it. |
| ImguiManager.Manager.Up | 12_imgui/src/ui.rs:254-256 | A window's release leaves its first child pressed unless its hover is on that child. The window's own fixed fields, its positions and its form stay. |
| ImguiManager.Manager.ReleaseFocused | 12_imgui/src/ui.rs:259-270 | The close flag is raised exactly when the focused window's first child was pressed. That window then holds nothing and its first three children are up. The views and positions stay; in the forms only the focused window's drag flags are cleared (`Settled`). |
| ImguiManager.Manager.SettleFocused | 12_imgui/src/ui.rs:265-271 | The focused window is disarmed and its three buttons released. The views and positions stay, and the forms change only as `Settled` says. |
| ImguiManager.Manager.Disarm | 12_imgui/src/ui.rs:265-268 | The window stops moving and holds no edge; its positions stay and its form changes only in the drag flags. |
| ImguiManager.Manager.UnpressButtons | 12_imgui/src/ui.rs:269-271 | The first three children are released; the window, its positions and its form stay. |
| ImguiManager.Manager.UnpressButton | 12_imgui/src/ui.rs:270 | Child `k` is released; the window, every other child, the positions and the form stay. |
| ImguiManager.Manager.PopIfClosed | 12_imgui/src/ui.rs:273-277 | A raised close flag pops the last window and clears the previous hover; otherwise nothing changes, and the focused window keeps its grip and buttons. The views, positions and forms are cut to the windows that remain. |
| ImguiManager.Manager.FirstChildUpKeepsWindow | 12_imgui/src/ui.rs:259-276 | A focused window whose first child is up is not about to be closed, so the release keeps every window. |
| ImguiManager.CloseButtonAsWrittenKeepsWindow | 12_imgui/src/ui.rs:259-276 | After a press on the close button, child 0, the first child is the button that was second. With that button up, the release's test finds nothing pressed, wherever the hover is, and the window stays open. |
| ImguiManager.ClosesOnRelease | 12_imgui/src/ui.rs:259-263 | The intended close test: it closes only when some child with the close button's id is pressed. |
| ImguiManager.PressedCloseCloses | 12_imgui/src/ui.rs:259-276 | With the intended close test, a press on a child and a release before the cursor moves close the window exactly when that child is the close button. A window whose close button is up is never closed. |
| ImguiManager.Manager.ToFrontFollows | 12_imgui/src/ui.rs:290-311 | After `to_front_window`, a hover index in range names the window it named before. |

## Left out

- Everything that talks to OpenGL is left out, because it is outside what a model of state can describe. This covers:
  - vertex array and buffer objects;
  - shaders and programs;
  - textures;
  - draw calls;
  - the drawing half of every `render`.
  The buffers are modelled as the arrays the source uploads.
- Manager::render of 12_imgui/src/ui.rs is not modelled beyond what `ImguiWindow.Window.Render` states for each window.
- Manager::add_window (12_imgui/src/ui.rs:77-132) is not modelled. It builds a window from five objects with many setter calls. The manager's windows come from states that satisfy its `Valid()` invariant.
- Window::create (12_imgui/src/ui/window.rs:37-124) is not modelled. The window class is used in states that satisfy `Valid()`, whose layout invariant is the one `create` sets up.
- `set_texture` (12_imgui/src/ui/object.rs:560-567) and the image loading it uses are not modelled; the `Image` type is not part of this model.
- These parts of 12_gui/src/ui/object.rs are not modelled:
  - `update`, `render` and `get_size`;
  - the `mouse_*` handlers and their `set_mouse_*_event` setters.
  They only call OpenGL or forward to callbacks. The callbacks themselves are modelled in the 12_imgui stage.
- 12_gui/src/ui/window.rs is not part of this model. The 12_gui manager records the calls it makes on each window instead.
- `process_input` of 10_interactive_camera/src/context.rs is not modelled; it reads the keyboard through GLFW.
- The trigonometric recomputation of the camera's front and right vectors is not modelled (12_gui/src/context.rs:195-196, 10_interactive_camera/src/context.rs:251).
- GuiContext.Context.MoveCamera: does not recompute `camera_front` and `camera_right` from the angles after moving, because that step is trigonometric. Its contract states that they are unchanged by the movement itself.
- `f32` arithmetic is modelled with exact reals, so rounding is not captured.
- Logging is not modelled: the `spdlog` messages and the `println!` in `add_window`.
- `Color::from` is the datatype constructor itself and has no member of its own.
- Zero frame-buffer sizes are excluded by `requires`, because the source divides by them.
- Aliasing through `Rc<RefCell<…>>` is not modelled. The model keeps every child in its own disjoint footprint, and a child shared between two parents is not captured.
- A callback is a tagged value drawn from the closures the project installs, which change the background colour. Arbitrary Rust closures are not captured.
- The hover and button events are stated through three things:
  - the positions of every node (`Snapshot`);
  - the form of every node (`Form`), which is its shape with the background colour, the pressed flag, the hover indices and the cursor positions masked out;
  - the views of the direct children (`ChildView`: colour, pressed flag, rectangle and callbacks).
  The masked state is not stated for the children's own hover indices and cursors or for anything deeper, which the recursive calls change along the hover path. Each member below leaves that state out, as described here.
- ImguiObject.Object.OnCursorPosEvent: leaves the masked state below the children's views unstated.
- ImguiObject.Object.CursorChildren: leaves the masked state below the children's views unstated.
- ImguiObject.Object.MouseOff: leaves the masked state below the children's views unstated.
- ImguiObject.Object.MouseDown: leaves the masked state below the children's views unstated.
- ImguiObject.Object.MouseUp: leaves the masked state below the children's views unstated.
- ImguiWindow.Window.OnCursorPosEvent: leaves the masked state below the elements' views unstated. Of those views it states the looks and callbacks; their rectangles follow from the positions and forms it states.
- ImguiWindow.Window.TrackHover: leaves the masked state below the elements' views unstated.
- ImguiWindow.Window.HoverAfter: leaves the masked state below the elements' views unstated.
- ImguiWindow.Window.HitElement: leaves the masked state below the elements' views unstated.
- ImguiWindow.Window.HoverElements: leaves the masked state below the elements' views unstated.
- ImguiWindow.Window.Rehover: leaves the masked state below the elements' views unstated.
- ImguiWindow.Window.MouseOn: leaves the masked state below the elements' views unstated.
- ImguiWindow.Window.MouseOff: leaves the masked state below the elements' views unstated.
- ImguiWindow.Window.MouseDown: leaves the masked state below the elements' views unstated.
- ImguiWindow.Window.MouseUp: leaves the masked state below the elements' views unstated.
- ImguiManager.Manager.OnCursorPosEvent: leaves the masked state below the windows' views unstated.
- ImguiManager.Manager.TrackHover: leaves the masked state below the windows' views unstated.
- ImguiManager.Manager.HoverAfter: leaves the masked state below the windows' views unstated.
- ImguiManager.Manager.HitWindow: leaves the masked state below the windows' views unstated.
- ImguiManager.Manager.HoverWindows: leaves the masked state below the windows' views unstated.
- ImguiManager.Manager.OnMouseDownEvent: leaves the masked state below the windows' views unstated.
- ImguiManager.Manager.PressHovered: leaves the masked state below the windows' views unstated.
- ImguiManager.Manager.PressWindow: leaves the masked state below the windows' views unstated.
- ImguiManager.Manager.PressFocused: leaves the masked state below the windows' views unstated.
- ImguiManager.Manager.DownFocused: leaves the masked state below the windows' views unstated.
- ImguiManager.Manager.ReleaseAll: leaves the masked state below the windows' views unstated, apart from the focused window's three buttons being up.
- ImguiManager.Manager.UpHovered: leaves the masked state below the windows' views unstated.
- ImguiManager.Manager.UpWindow: leaves the masked state below the window's view unstated.
- ImguiManager.Manager.Up: leaves the masked state below the window's view unstated, apart from its first child's pressed flag.
- ImguiManager.Manager.ReleaseFocused: leaves the masked state below the windows' views unstated, apart from the focused window's three buttons being up.
- ImguiManager.Manager.OnCursorPosEvent: requires the previous hover index to name a live window, so it does not describe a panic the source can reach. `delete_window` (12_imgui/src/ui.rs:134-146) removes a window without adjusting `on_cursor_window` or `prev_on_cursor_window`. If the cursor event that follows changes the hover, ui.rs:221-222 indexes past the end of `windows` and panics.
- ImguiManager.Manager.OnMouseDownEvent: requires the hover index to name a live window, so it does not describe a panic the source can reach. After `delete_window`, or after the pop at 12_imgui/src/ui.rs:273-277, which clears only the previous hover, `on_cursor_window` can be one past the end. The next button event then panics in `to_front_window` (ui.rs:231, 292) or at ui.rs:255.
- ImguiManager.Manager.DeleteWindow: leaves both hover indices as they were, as the source does; the stale index it can leave is what the two lines above exclude.
- ImguiObject.Object.BringToFront: requires the index to name a child, so it does not describe the panic of `Vec::remove` on an index past the end. In the source that index comes from `on_cursor_child` (12_imgui/src/ui/object.rs:516-517). `render` does not adjust it when it drops children, so it can be past the end there (see "## Findings"). The model keeps it in range because its `Render` remaps the hover indices.
- GuiManager.Tell: a call into 12_gui/src/ui/window.rs is only logged. The model assumes the call leaves the window's position, size, ratio and drag flags as they were. That file is where a press sets the drag flags, so the drag branches (`GuiManager.DragWhileMoving` and the four edge steps) hold for whatever flags a window has, but the model does not show how a press sets them.
- GuiManager.Manager.OnCursorPosEvent: relies on that assumption for the windows it tells about the cursor and the hover change; their frames and flags after the event are the dragged ones, with the calls appended.
- GuiManager.Manager.HitWindow: relies on the same assumption for the cursor call to the hit window.
- GuiManager.Manager.FireHover: relies on the same assumption for `mouse_on` and `mouse_off`.
- GuiManager.Manager.OnMouseDownEvent: relies on the same assumption for the button calls of a press and a release.
- GuiManager.Manager.PressWindow: relies on the same assumption for `on_mouse_button_event` and `mouse_down`, which in the source is where the pressed window's drag flags are set.
- GuiManager.Manager.ReleaseWindow: relies on the same assumption for the release calls.

## Findings

| source | as written | input that shows it | evidently intended | confidence | as-written member | corrected member |
|---|---|---|---|---|---|---|
| 12_imgui/src/ui/object.rs:429-437 | `render` collects the indices of closed children, then calls `remove(i)` for each of them in increasing order. Each removal shifts every later child down by one, so from the second removal on, the indices name the wrong children. The hover indices `on_cursor_child` and `prev_on_cursor_child` are not adjusted at all. | Children `[closed, closed, open]`: the sweep removes index 0, then index 1, which is now the open child, and keeps a closed one. Children `[open, closed, closed]`: the second removal is at index 2 of a two-element list, which panics. Children `[closed, open]` with the hover on index 1: after the sweep index 1 is past the end. | Remove exactly the closed children and keep the open ones in order, with the hover indices following their children. | not executed | ChildList.SweepAsWrittenDropsOpenChild, ChildList.SweepAsWrittenPanics, ChildList.SweepAsWrittenLeavesHoverStale | ImguiObject.Object.Render |
| 12_imgui/src/ui.rs:259-263 | The release closes the focused window when its first child, `objects[0]`, is still pressed after `mouse_up`. The close button is created as that child, but a press on it runs `mouse_down`, which presses it and then moves it to the end of the list with `bring_to_front` (12_imgui/src/ui/object.rs:511-519, 589-611). The test then reads the maximize button, which is up. | A window with its three buttons up: press on the close button and release over it. The close button is now child 2, and `mouse_up` releases it. The test reads child 0, the maximize button, which is up, so the window stays open. | A release over the close button while it is held closes the window. The button is found by its id wherever presses have moved it, and it is read before `mouse_up` releases it. | not executed | ImguiManager.CloseButtonAsWrittenKeepsWindow | ImguiManager.PressedCloseCloses |

The manager class models the release as the source writes it. Its `OnMouseDownEvent` pops exactly on `CloseArmed`, the first-child test, and `ImguiManager.Manager.FirstChildUpKeepsWindow` ties that test to the views `CloseButtonAsWrittenKeepsWindow` is about. The intended test, `ImguiManager.ClosesOnRelease`, is stated beside it with its property proved; the class does not use it, because the fix needs the close button's identity, which the source's manager does not keep.
