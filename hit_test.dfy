/**
 * Hit-testing: which entry of a back-to-front list of rectangles lies under
 * the cursor, and which enter/leave callbacks a change of hover fires.
 */
module HitTest {
  import opened Common

  /** A widget's screen rectangle: top-left corner and extent. */
  datatype Rect = Rect(pos: Vec2, width: real, height: real)

  /** Half-open bounds `[x, x+w) × [y, y+h)`, as in the 12_imgui stage. */
  predicate InHalfOpen(r: Rect, p: Vec2)
  {
    r.pos.x <= p.x < r.pos.x + r.width && r.pos.y <= p.y < r.pos.y + r.height
  }

  /** Closed bounds `[x, x+w] × [y, y+h]`, as in the 12_gui stage. */
  predicate InClosed(r: Rect, p: Vec2)
  {
    r.pos.x <= p.x <= r.pos.x + r.width && r.pos.y <= p.y <= r.pos.y + r.height
  }

  predicate Contains(r: Rect, p: Vec2, closedBounds: bool)
  {
    if closedBounds then InClosed(r, p) else InHalfOpen(r, p)
  }

  /**
   * The largest index below `n` whose rectangle contains `p`: the entry drawn
   * last, hence on top.
   */
  function TopmostBelow(rs: seq<Rect>, p: Vec2, closedBounds: bool, n: nat): (r: Option<nat>)
    requires n <= |rs|
    ensures r.Some? ==> r.value < n && Contains(rs[r.value], p, closedBounds)
    ensures r.Some? ==> forall j :: r.value < j < n ==> !Contains(rs[j], p, closedBounds)
    ensures r.None? ==> forall j :: 0 <= j < n ==> !Contains(rs[j], p, closedBounds)
  {
    if n == 0 then None
    else if Contains(rs[n - 1], p, closedBounds) then Some(n - 1)
    else TopmostBelow(rs, p, closedBounds, n - 1)
  }

  function Topmost(rs: seq<Rect>, p: Vec2, closedBounds: bool): Option<nat>
  {
    TopmostBelow(rs, p, closedBounds, |rs|)
  }

  /** The topmost hit is the only index satisfying the scan's exit condition. */
  lemma TopmostUnique(rs: seq<Rect>, p: Vec2, closedBounds: bool, k: nat)
    requires k < |rs| && Contains(rs[k], p, closedBounds)
    requires forall j :: k < j < |rs| ==> !Contains(rs[j], p, closedBounds)
    ensures Topmost(rs, p, closedBounds) == Some(k)
  {
  }

  /** The callbacks a hover change fires: enter on the new entry, leave on the old one. */
  datatype Fired = Fired(entered: Option<nat>, left: Option<nat>)

  const NothingFired := Fired(None, None)

  /**
   * Enter/leave fire only when the hovered index differs from the one
   * recorded by the previous event (12_imgui/src/ui/object.rs:484-491).
   */
  function HoverFires(prev: Option<nat>, cur: Option<nat>): (f: Fired)
  {
    if cur != prev then Fired(cur, prev) else NothingFired
  }

  /**
   * Each event records the hovered index as the new previous one, so a
   * second event at the same cursor over the same rectangles fires nothing,
   * whatever the first one fired.
   */
  lemma RepeatedEventFiresNothing(rs: seq<Rect>, p: Vec2, closedBounds: bool, prev: Option<nat>)
    ensures HoverFires(Topmost(rs, p, closedBounds), Topmost(rs, p, closedBounds)) == NothingFired
    ensures HoverFires(prev, Topmost(rs, p, closedBounds)) != NothingFired <==> prev != Topmost(rs, p, closedBounds)
  {
  }

  /** A cursor outside every rectangle hovers nothing. */
  lemma NoHitOutside(rs: seq<Rect>, p: Vec2, closedBounds: bool)
    requires forall j :: 0 <= j < |rs| ==> !Contains(rs[j], p, closedBounds)
    ensures Topmost(rs, p, closedBounds) == None
  {
  }
}
