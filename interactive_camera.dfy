/**
 * The input state of the 10_interactive_camera scene
 * (10_interactive_camera/src/context.rs): the right mouse button hands the
 * camera to the cursor, a cursor move then turns it, and the window size is
 * recorded.
 */
module InteractiveCamera {
  import opened Common
  import opened CameraAngles

  /** Degrees turned per pixel of cursor movement. */
  const Sensitivity: real := 0.1

  /** The mouse buttons `mouse_button` tells apart. */
  datatype MouseButton = Right | OtherButton

  /** A glfw button action. */
  datatype Action = Release | Press | Repeat

  class Context {
    var width: nat
    var height: nat
    var cameraPitch: real
    var cameraYaw: real
    var previousMousePosition: Vec2
    var mousePosition: Vec2
    var cameraControl: bool

    /**
     * The input part of `create` (10_interactive_camera/src/context.rs:160-172):
     * the camera level and facing its start direction, the mouse at the
     * origin and not controlling it.
     */
    constructor (width: nat, height: nat)
      ensures this.width == width && this.height == height
      ensures cameraPitch == 0.0 && cameraYaw == 0.0
      ensures mousePosition == Vec2(0.0, 0.0) && previousMousePosition == Vec2(0.0, 0.0) && !cameraControl
    {
      this.width, this.height := width, height;
      cameraPitch, cameraYaw := 0.0, 0.0;
      previousMousePosition, mousePosition := Vec2(0.0, 0.0), Vec2(0.0, 0.0);
      cameraControl := false;
    }

    /** `reshape` (10_interactive_camera/src/context.rs:221-224): the size is stored and nothing else changes. */
    method Reshape(w: nat, h: nat)
      modifies this
      ensures width == w && height == h
      ensures cameraYaw == old(cameraYaw) && cameraPitch == old(cameraPitch) && cameraControl == old(cameraControl)
      ensures mousePosition == old(mousePosition) && previousMousePosition == old(previousMousePosition)
    {
      width := w;
      height := h;
    }

    /**
     * The angle part of `mouse_move` (10_interactive_camera/src/context.rs:226-253):
     * the cursor is always stored; while the mouse controls the camera the
     * yaw and the pitch turn against the cursor delta, the yaw is wrapped,
     * the pitch clamped, and the cursor becomes the reference for the next
     * delta.
     */
    method MouseMove(x: real, y: real)
      modifies this
      ensures mousePosition == Vec2(x, y)
      ensures !old(cameraControl) ==> cameraYaw == old(cameraYaw) && cameraPitch == old(cameraPitch) && previousMousePosition == old(previousMousePosition)
      ensures old(cameraControl) ==> cameraYaw == WrapYaw(old(cameraYaw) - (x - old(previousMousePosition).x) * Sensitivity)
      ensures old(cameraControl) ==> cameraPitch == ClampPitch(old(cameraPitch) - (y - old(previousMousePosition).y) * Sensitivity)
      ensures old(cameraControl) ==> previousMousePosition == mousePosition
      ensures cameraControl == old(cameraControl) && width == old(width) && height == old(height)
    {
      mousePosition := Vec2(x, y);
      if cameraControl == false {
        return;
      }
      var delta := mousePosition.Minus(previousMousePosition);
      cameraYaw := cameraYaw - delta.x * Sensitivity;
      cameraPitch := cameraPitch - delta.y * Sensitivity;
      if cameraYaw < 0.0 {
        cameraYaw := cameraYaw + Turn;
      }
      if cameraYaw > Turn {
        cameraYaw := cameraYaw - Turn;
      }
      if cameraPitch < -PitchLimit {
        cameraPitch := -PitchLimit;
      }
      if cameraPitch > PitchLimit {
        cameraPitch := PitchLimit;
      }
      previousMousePosition := mousePosition;
    }

    /**
     * `mouse_button` (10_interactive_camera/src/context.rs:256-266): only the
     * right button counts; releasing it ends control, pressing or repeating
     * it starts control with the cursor as the reference.
     */
    method MouseButtonEvent(button: MouseButton, action: Action)
      modifies this
      ensures button == OtherButton ==> cameraControl == old(cameraControl) && previousMousePosition == old(previousMousePosition)
      ensures button == Right && action == Release ==> !cameraControl && previousMousePosition == old(previousMousePosition)
      ensures button == Right && action != Release ==> cameraControl && previousMousePosition == mousePosition
      ensures mousePosition == old(mousePosition) && cameraYaw == old(cameraYaw) && cameraPitch == old(cameraPitch)
      ensures width == old(width) && height == old(height)
    {
      if button == Right {
        match action {
          case Release =>
            cameraControl := false;
          case _ =>
            previousMousePosition := mousePosition;
            cameraControl := true;
        }
      }
    }
  }
}
