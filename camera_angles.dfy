/**
 * The angle bookkeeping both camera contexts share: a cursor move turns the
 * camera by the cursor delta times a sensitivity, the yaw is wrapped by at
 * most one full turn and the pitch is clamped short of straight up or down
 * (12_gui/src/context.rs:239-252, 10_interactive_camera/src/context.rs:236-249).
 */
module CameraAngles {
  /** The pitch limit in degrees. */
  const PitchLimit: real := 89.0

  /** A full turn in degrees. */
  const Turn: real := 360.0

  /**
   * The yaw after the two wrap statements: a negative yaw gains one turn,
   * then a yaw above a full turn loses one. The result differs from `y` by
   * at most one turn, and it lies in [0, 360] whenever `y` was at most one
   * turn outside that range.
   */
  function WrapYaw(y: real): (r: real)
    ensures r == y || r == y + Turn || r == y - Turn
    ensures -Turn <= y <= 2.0 * Turn ==> 0.0 <= r <= Turn
    ensures 0.0 <= y <= Turn ==> r == y
  {
    var a := if y < 0.0 then y + Turn else y;
    if a > Turn then a - Turn else a
  }

  /** The pitch after the two clamp statements: within the limits it is kept, beyond them it is the nearer limit. */
  function ClampPitch(p: real): (r: real)
    ensures -PitchLimit <= r <= PitchLimit
    ensures -PitchLimit <= p <= PitchLimit ==> r == p
    ensures p < -PitchLimit ==> r == -PitchLimit
    ensures p > PitchLimit ==> r == PitchLimit
  {
    var a := if p < -PitchLimit then -PitchLimit else p;
    if a > PitchLimit then PitchLimit else a
  }

  /**
   * A controlled cursor move turns the camera from `yaw` by the horizontal
   * delta `dx` times `sensitivity`: from a yaw in [0, 360], a turn of at
   * most one full turn ends in [0, 360] again.
   */
  lemma TurnStaysInRange(yaw: real, dx: real, sensitivity: real)
    requires 0.0 <= yaw <= Turn
    requires -Turn <= dx * sensitivity <= Turn
    ensures 0.0 <= WrapYaw(yaw - dx * sensitivity) <= Turn
  {
  }

  /** Clamping the pitch twice is clamping it once. */
  lemma ClampPitchIdempotent(p: real)
    ensures ClampPitch(ClampPitch(p)) == ClampPitch(p)
  {
  }

  /** Clamping keeps the order of pitches. */
  lemma ClampPitchMonotone(p: real, q: real)
    requires p <= q
    ensures ClampPitch(p) <= ClampPitch(q)
  {
  }
}
