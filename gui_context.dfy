/**
 * The input state of the 12_gui scene (12_gui/src/context.rs): six held
 * keys that step the camera every frame, a cursor that turns it while the
 * mouse button is held, and the framebuffer size.
 */
module GuiContext {
  import opened Common
  import opened CameraAngles

  /** The keys `on_key_event` tells apart; every other key is `OtherKey`. */
  datatype Key = W | A | S | D | Space | LeftShift | OtherKey

  /** Degrees turned per pixel of cursor movement. */
  const Sensitivity: real := 0.15

  /** Distance moved per second while a key is held. */
  const Speed: real := 2.5

  /** `u32::MAX + 1`, the modulus of the `as u32` casts. */
  const U32Range: int := 0x1_0000_0000

  /** The slot of `key_down` that key `k` drives, if any: W, A, S, D, Space, LeftShift in that order. */
  function KeySlot(k: Key): (r: Option<nat>)
    ensures r.Some? <==> k != OtherKey
    ensures r.Some? ==> r.value < 6
  {
    match k
    case W => Some(0)
    case A => Some(1)
    case S => Some(2)
    case D => Some(3)
    case Space => Some(4)
    case LeftShift => Some(5)
    case OtherKey => None
  }

  /** Different keys drive different slots. */
  lemma KeySlotInjective(k: Key, k': Key)
    requires KeySlot(k).Some? && KeySlot(k) == KeySlot(k')
    ensures k == k'
  {
  }

  /** Rust's `v as u32` for an `i32` value `v`: the bits are kept, so a negative value wraps around. */
  function AsU32(v: int): (r: nat)
    requires -0x8000_0000 <= v < 0x8000_0000
    ensures r < U32Range && (r - v) % U32Range == 0
    ensures 0 <= v ==> r == v
  {
    if v < 0 then v + U32Range else v
  }

  /** The world's up direction. */
  const Up: Vec3 := Vec3(0.0, 1.0, 0.0)

  /** One statement of the movement block: if the key is held, `p` moves by `k` times `v`. */
  function Step(p: Vec3, down: bool, v: Vec3, k: real): Vec3
  {
    if down then p.Plus(v.Scale(k)) else p
  }

  /**
   * Where one frame of `render` moves the camera from `p` with key state
   * `keys`: `step` along the front for W, back along the right for A, back
   * along the front for S, along the right for D, up for Space and down for
   * LeftShift, in that order.
   */
  function Stepped(p: Vec3, keys: seq<bool>, step: real, front: Vec3, right: Vec3): Vec3
    requires |keys| == 6
  {
    var p0 := Step(p, keys[0], front, step);
    var p1 := Step(p0, keys[1], right, -step);
    var p2 := Step(p1, keys[2], front, -step);
    var p3 := Step(p2, keys[3], right, step);
    var p4 := Step(p3, keys[4], Up, step);
    Step(p4, keys[5], Up, -step)
  }

  /** With no key held the camera stays where it is. */
  lemma NoKeyNoMove(p: Vec3, step: real, front: Vec3, right: Vec3)
    ensures Stepped(p, [false, false, false, false, false, false], step, front, right) == p
  {
  }

  /** Holding W together with S moves the camera as holding neither. */
  lemma ForwardBackCancel(p: Vec3, keys: seq<bool>, step: real, front: Vec3, right: Vec3)
    requires |keys| == 6
    ensures Stepped(p, keys[0 := true][2 := true], step, front, right) == Stepped(p, keys[0 := false][2 := false], step, front, right)
  {
  }

  /** Holding A together with D moves the camera as holding neither. */
  lemma LeftRightCancel(p: Vec3, keys: seq<bool>, step: real, front: Vec3, right: Vec3)
    requires |keys| == 6
    ensures Stepped(p, keys[1 := true][3 := true], step, front, right) == Stepped(p, keys[1 := false][3 := false], step, front, right)
  {
  }

  /** Holding Space together with LeftShift moves the camera as holding neither. */
  lemma UpDownCancel(p: Vec3, keys: seq<bool>, step: real, front: Vec3, right: Vec3)
    requires |keys| == 6
    ensures Stepped(p, keys[4 := true][5 := true], step, front, right) == Stepped(p, keys[4 := false][5 := false], step, front, right)
  {
  }

  class Context {
    var width: nat
    var height: nat
    var cameraPosition: Vec3
    var cameraFront: Vec3
    var cameraRight: Vec3
    var cameraPitch: real
    var cameraYaw: real
    var previousMousePosition: Vec2
    var mousePosition: Vec2
    var cameraControl: bool
    const keyDown: array<bool>

    ghost predicate Valid()
      reads this
    {
      keyDown.Length == 6
    }

    /**
     * The input part of `create` (12_gui/src/context.rs:152-167): the camera
     * at (0, 0, 4) looking down -z with +x to its right, level, no key held
     * and the mouse not controlling it.
     */
    constructor (width: nat, height: nat)
      ensures Valid() && fresh(keyDown)
      ensures this.width == width && this.height == height
      ensures cameraPosition == Vec3(0.0, 0.0, 4.0) && cameraFront == Vec3(0.0, 0.0, -1.0) && cameraRight == Vec3(1.0, 0.0, 0.0)
      ensures cameraPitch == 0.0 && cameraYaw == 0.0
      ensures mousePosition == Vec2(0.0, 0.0) && previousMousePosition == Vec2(0.0, 0.0)
      ensures !cameraControl && keyDown[..] == [false, false, false, false, false, false]
    {
      this.width, this.height := width, height;
      cameraPosition, cameraFront, cameraRight := Vec3(0.0, 0.0, 4.0), Vec3(0.0, 0.0, -1.0), Vec3(1.0, 0.0, 0.0);
      cameraPitch, cameraYaw := 0.0, 0.0;
      previousMousePosition, mousePosition := Vec2(0.0, 0.0), Vec2(0.0, 0.0);
      cameraControl := false;
      keyDown := new bool[6](_ => false);
    }

    /**
     * The movement block of `render` (12_gui/src/context.rs:174-192): each
     * held key moves the camera by `delta_time * 2.5` along its direction,
     * using the front and right vectors of the previous frame.
     */
    method MoveCamera(deltaTime: real)
      requires Valid()
      modifies this
      ensures cameraPosition == Stepped(old(cameraPosition), keyDown[..], deltaTime * Speed, cameraFront, cameraRight)
      ensures cameraFront == old(cameraFront) && cameraRight == old(cameraRight)
      ensures cameraYaw == old(cameraYaw) && cameraPitch == old(cameraPitch) && cameraControl == old(cameraControl)
      ensures mousePosition == old(mousePosition) && previousMousePosition == old(previousMousePosition)
      ensures width == old(width) && height == old(height)
    {
      var step := deltaTime * Speed;
      cameraPosition := Step(cameraPosition, keyDown[0], cameraFront, step);
      cameraPosition := Step(cameraPosition, keyDown[1], cameraRight, -step);
      cameraPosition := Step(cameraPosition, keyDown[2], cameraFront, -step);
      cameraPosition := Step(cameraPosition, keyDown[3], cameraRight, step);
      cameraPosition := Step(cameraPosition, keyDown[4], Up, step);
      cameraPosition := Step(cameraPosition, keyDown[5], Up, -step);
    }

    /** `on_key_event` (12_gui/src/context.rs:213-223): the slot of a known key records whether it is down. */
    method OnKeyEvent(key: Key, down: bool)
      requires Valid()
      modifies keyDown
      ensures KeySlot(key).Some? ==> keyDown[..] == old(keyDown[..])[KeySlot(key).value := down]
      ensures KeySlot(key).None? ==> keyDown[..] == old(keyDown[..])
    {
      match key {
        case W => keyDown[0] := down;
        case A => keyDown[1] := down;
        case S => keyDown[2] := down;
        case D => keyDown[3] := down;
        case Space => keyDown[4] := down;
        case LeftShift => keyDown[5] := down;
        case OtherKey =>
      }
    }

    /** `on_frame_buffer_size_event` (12_gui/src/context.rs:225-228): the size is stored through `as u32`. */
    method OnFrameBufferSizeEvent(w: int, h: int)
      requires -0x8000_0000 <= w < 0x8000_0000 && -0x8000_0000 <= h < 0x8000_0000
      modifies this
      ensures width == AsU32(w) && height == AsU32(h)
      ensures cameraPosition == old(cameraPosition) && cameraYaw == old(cameraYaw) && cameraPitch == old(cameraPitch)
      ensures mousePosition == old(mousePosition) && previousMousePosition == old(previousMousePosition) && cameraControl == old(cameraControl)
      ensures cameraFront == old(cameraFront) && cameraRight == old(cameraRight)
    {
      width := AsU32(w);
      height := AsU32(h);
    }

    /**
     * `on_cursor_pos_event` (12_gui/src/context.rs:230-255): the cursor is
     * stored; while the mouse controls the camera, the yaw and the pitch
     * turn against the cursor delta, the yaw is wrapped, the pitch clamped,
     * and the cursor becomes the reference for the next delta.
     */
    method OnCursorPosEvent(x: real, y: real)
      modifies this
      ensures mousePosition == Vec2(x, y)
      ensures !old(cameraControl) ==> cameraYaw == old(cameraYaw) && cameraPitch == old(cameraPitch) && previousMousePosition == old(previousMousePosition)
      ensures old(cameraControl) ==> cameraYaw == WrapYaw(old(cameraYaw) - (x - old(previousMousePosition).x) * Sensitivity)
      ensures old(cameraControl) ==> cameraPitch == ClampPitch(old(cameraPitch) - (y - old(previousMousePosition).y) * Sensitivity)
      ensures old(cameraControl) ==> previousMousePosition == mousePosition
      ensures cameraControl == old(cameraControl) && cameraPosition == old(cameraPosition) && width == old(width) && height == old(height)
      ensures cameraFront == old(cameraFront) && cameraRight == old(cameraRight)
    {
      mousePosition := Vec2(x, y);
      if cameraControl == false {
        return;
      }
      var delta := mousePosition.Minus(previousMousePosition);
      cameraYaw := cameraYaw - delta.x * Sensitivity;
      cameraPitch := cameraPitch - delta.y * Sensitivity;
      if cameraYaw < 0.0 {
        cameraYaw := cameraYaw + Turn;
      }
      if cameraYaw > Turn {
        cameraYaw := cameraYaw - Turn;
      }
      if cameraPitch < -PitchLimit {
        cameraPitch := -PitchLimit;
      }
      if cameraPitch > PitchLimit {
        cameraPitch := PitchLimit;
      }
      previousMousePosition := mousePosition;
    }

    /** `on_mouse_down_event` (12_gui/src/context.rs:257-260): the button state decides control and the cursor becomes the reference. */
    method OnMouseDownEvent(press: bool)
      modifies this
      ensures cameraControl == press && previousMousePosition == mousePosition && mousePosition == old(mousePosition)
      ensures cameraYaw == old(cameraYaw) && cameraPitch == old(cameraPitch) && cameraPosition == old(cameraPosition)
      ensures width == old(width) && height == old(height)
      ensures cameraFront == old(cameraFront) && cameraRight == old(cameraRight)
    {
      cameraControl := press;
      previousMousePosition := mousePosition;
    }
  }
}
