/**
 * The positions of a widget subtree as a value. Each node has a position
 * relative to its parent (`local`), the parent's absolute position (`base`)
 * and its own absolute position (`global`); the setters keep
 * `global = base + local` and hand every node's `global` down to its children
 * as their `base`.
 */
module PositionTree {
  import opened Common

  datatype PosTree = Node(local: Vec2, base: Vec2, global: Vec2, kids: seq<PosTree>)

  /**
   * `set_base_pos` on one axis (12_imgui/src/ui/object.rs:217-233): the
   * node's base becomes `v`, its global `v + local`, and every child is
   * rebased onto that global, recursively.
   */
  function Rebase(t: PosTree, a: Axis, v: real): PosTree
    decreases t
  {
    var g := v + t.local.Get(a);
    Node(t.local, t.base.With(a, v), t.global.With(a, g), RebaseAll(t.kids, a, g))
  }

  /** Every tree of `ts` rebased onto `v` on axis `a`. */
  function RebaseAll(ts: seq<PosTree>, a: Axis, v: real): (r: seq<PosTree>)
    ensures |r| == |ts|
    ensures forall i :: 0 <= i < |ts| ==> r[i] == Rebase(ts[i], a, v)
    decreases ts
  {
    seq(|ts|, i requires 0 <= i < |ts| => Rebase(ts[i], a, v))
  }

  /** `set_local_pos` on one axis (12_imgui/src/ui/object.rs:199-215). */
  function Relocate(t: PosTree, a: Axis, v: real): PosTree
  {
    var g := t.base.Get(a) + v;
    Node(t.local.With(a, v), t.base, t.global.With(a, g), RebaseAll(t.kids, a, g))
  }

  /** The x axis is handled first, then the y axis, each only when given. */
  function SetBase(t: PosTree, x: Option<real>, y: Option<real>): PosTree
  {
    var t1 := if x.Some? then Rebase(t, X, x.value) else t;
    if y.Some? then Rebase(t1, Y, y.value) else t1
  }

  function SetLocal(t: PosTree, x: Option<real>, y: Option<real>): PosTree
  {
    var t1 := if x.Some? then Relocate(t, X, x.value) else t;
    if y.Some? then Relocate(t1, Y, y.value) else t1
  }

  /** On axis `a`, every node has `global = base + local` and hands its global to its children. */
  predicate Coherent(t: PosTree, a: Axis)
    decreases t
  {
    && t.global.Get(a) == t.base.Get(a) + t.local.Get(a)
    && forall i :: 0 <= i < |t.kids| ==> t.kids[i].base.Get(a) == t.global.Get(a) && Coherent(t.kids[i], a)
  }

  /** `t` and `u` have the same shape and the same positions on axis `a` throughout. */
  predicate SameOn(t: PosTree, u: PosTree, a: Axis)
    decreases t
  {
    && |t.kids| == |u.kids|
    && t.local.Get(a) == u.local.Get(a) && t.base.Get(a) == u.base.Get(a) && t.global.Get(a) == u.global.Get(a)
    && forall i :: 0 <= i < |t.kids| ==> SameOn(t.kids[i], u.kids[i], a)
  }

  /** `t` and `u` have the same shape and the same local positions throughout. */
  predicate SameLocals(t: PosTree, u: PosTree)
    decreases t
  {
    && |t.kids| == |u.kids| && t.local == u.local
    && forall i :: 0 <= i < |t.kids| ==> SameLocals(t.kids[i], u.kids[i])
  }

  lemma {:induction false} SameOnRefl(t: PosTree, a: Axis)
    ensures SameOn(t, t, a)
    decreases t
  {
    forall i | 0 <= i < |t.kids| {
      SameOnRefl(t.kids[i], a);
    }
  }

  lemma {:induction false} SameLocalsRefl(t: PosTree)
    ensures SameLocals(t, t)
    decreases t
  {
    forall i | 0 <= i < |t.kids| {
      SameLocalsRefl(t.kids[i]);
    }
  }

  lemma {:induction false} SameLocalsTrans(t: PosTree, u: PosTree, w: PosTree)
    requires SameLocals(t, u) && SameLocals(u, w)
    ensures SameLocals(t, w)
    decreases t
  {
    forall i | 0 <= i < |t.kids| {
      SameLocalsTrans(t.kids[i], u.kids[i], w.kids[i]);
    }
  }

  /** Coherence on an axis depends only on the positions on that axis. */
  lemma {:induction false} SameOnCoherent(t: PosTree, u: PosTree, a: Axis)
    requires SameOn(t, u, a) && Coherent(u, a)
    ensures Coherent(t, a)
    decreases t
  {
    forall i | 0 <= i < |t.kids| {
      SameOnCoherent(t.kids[i], u.kids[i], a);
    }
  }

  /** Rebasing makes the whole subtree coherent on that axis, whatever it was before. */
  lemma {:induction false} RebaseCoherent(t: PosTree, a: Axis, v: real)
    ensures Rebase(t, a, v).base.Get(a) == v
    ensures Coherent(Rebase(t, a, v), a)
    decreases t
  {
    var g := v + t.local.Get(a);
    forall i | 0 <= i < |t.kids| {
      RebaseCoherent(t.kids[i], a, g);
    }
  }

  /** Rebasing one axis leaves every position on the other axis, and every local position, as it was. */
  lemma {:induction false} RebaseKeepsOther(t: PosTree, a: Axis, v: real)
    ensures SameOn(Rebase(t, a, v), t, Other(a))
    ensures SameLocals(Rebase(t, a, v), t)
    decreases t
  {
    var g := v + t.local.Get(a);
    forall i | 0 <= i < |t.kids| {
      RebaseKeepsOther(t.kids[i], a, g);
    }
  }

  /** Rebasing a subtree that is already coherent on the axis onto its own base changes nothing. */
  lemma {:induction false} RebaseCoherentIsIdentity(t: PosTree, a: Axis)
    requires Coherent(t, a)
    ensures Rebase(t, a, t.base.Get(a)) == t
    decreases t
  {
    var g := t.base.Get(a) + t.local.Get(a);
    var r := Rebase(t, a, t.base.Get(a));
    forall i | 0 <= i < |t.kids|
      ensures r.kids[i] == t.kids[i]
    {
      RebaseCoherentIsIdentity(t.kids[i], a);
    }
    assert r.kids == t.kids;
  }

  /** Rebasing twice with the same value is the same as once. */
  lemma RebaseIdempotent(t: PosTree, a: Axis, v: real)
    ensures Rebase(Rebase(t, a, v), a, v) == Rebase(t, a, v)
  {
    RebaseCoherent(t, a, v);
    RebaseCoherentIsIdentity(Rebase(t, a, v), a);
  }

  /**
   * `set_base_pos`: on every axis given, the node takes the new base and the
   * whole subtree ends coherent; on an axis passed as `None` nothing changes
   * anywhere in the subtree; no local position changes.
   */
  lemma SetBaseSpec(t: PosTree, x: Option<real>, y: Option<real>)
    ensures x.Some? ==> SetBase(t, x, y).base.x == x.value && Coherent(SetBase(t, x, y), X)
    ensures y.Some? ==> SetBase(t, x, y).base.y == y.value && Coherent(SetBase(t, x, y), Y)
    ensures x.None? ==> SameOn(SetBase(t, x, y), t, X)
    ensures y.None? ==> SameOn(SetBase(t, x, y), t, Y)
    ensures SameLocals(SetBase(t, x, y), t)
  {
    var t1 := if x.Some? then Rebase(t, X, x.value) else t;
    var r := SetBase(t, x, y);
    SameOnRefl(t, X);
    SameOnRefl(t, Y);
    SameLocalsRefl(t);
    SameOnRefl(t1, X);
    SameLocalsRefl(t1);
    if x.Some? {
      RebaseCoherent(t, X, x.value);
      RebaseKeepsOther(t, X, x.value);
    }
    if y.Some? {
      RebaseCoherent(t1, Y, y.value);
      RebaseKeepsOther(t1, Y, y.value);
      if x.Some? {
        SameOnCoherent(r, t1, X);
      }
      SameLocalsTrans(r, t1, t);
    }
  }

  /** Relocating sets the node's local position and makes the subtree coherent on that axis. */
  lemma RelocateCoherent(t: PosTree, a: Axis, v: real)
    ensures Relocate(t, a, v).local.Get(a) == v
    ensures Relocate(t, a, v).base == t.base
    ensures Coherent(Relocate(t, a, v), a)
    ensures SameOn(Relocate(t, a, v), t, Other(a))
  {
    var g := t.base.Get(a) + v;
    var r := Relocate(t, a, v);
    forall i | 0 <= i < |t.kids|
      ensures Coherent(r.kids[i], a) && SameOn(r.kids[i], t.kids[i], Other(a))
    {
      RebaseCoherent(t.kids[i], a, g);
      RebaseKeepsOther(t.kids[i], a, g);
    }
  }

  /**
   * `set_local_pos`: on every axis given, the node takes the new local
   * position and the whole subtree ends coherent; an axis passed as `None`
   * is left alone; the node's base never changes.
   */
  lemma SetLocalSpec(t: PosTree, x: Option<real>, y: Option<real>)
    ensures x.Some? ==> SetLocal(t, x, y).local.x == x.value && Coherent(SetLocal(t, x, y), X)
    ensures y.Some? ==> SetLocal(t, x, y).local.y == y.value && Coherent(SetLocal(t, x, y), Y)
    ensures x.None? ==> SameOn(SetLocal(t, x, y), t, X)
    ensures y.None? ==> SameOn(SetLocal(t, x, y), t, Y)
    ensures SetLocal(t, x, y).base == t.base
  {
    var t1 := if x.Some? then Relocate(t, X, x.value) else t;
    var r := SetLocal(t, x, y);
    SameOnRefl(t, X);
    SameOnRefl(t, Y);
    SameOnRefl(t1, X);
    if x.Some? {
      RelocateCoherent(t, X, x.value);
    }
    if y.Some? {
      RelocateCoherent(t1, Y, y.value);
      if x.Some? {
        SameOnCoherent(r, t1, X);
      }
    }
  }

  /** Of two rebases on the same axis the later one wins: the first leaves no trace. */
  lemma {:induction false} RebaseTwice(t: PosTree, a: Axis, v: real, w: real)
    ensures Rebase(Rebase(t, a, v), a, w) == Rebase(t, a, w)
    decreases t
  {
    var t1 := Rebase(t, a, v);
    var r := Rebase(t1, a, w);
    forall i | 0 <= i < |t.kids|
      ensures r.kids[i] == Rebase(t.kids[i], a, w + t.local.Get(a))
    {
      RebaseTwice(t.kids[i], a, v + t.local.Get(a), w + t.local.Get(a));
    }
    assert r.base == t.base.With(a, w);
  }

  /** Rebases on the two axes commute. */
  lemma {:induction false} RebaseCommute(t: PosTree, v: real, w: real)
    ensures Rebase(Rebase(t, X, v), Y, w) == Rebase(Rebase(t, Y, w), X, v)
    decreases t
  {
    var l := Rebase(Rebase(t, X, v), Y, w);
    var r := Rebase(Rebase(t, Y, w), X, v);
    forall i | 0 <= i < |t.kids|
      ensures l.kids[i] == r.kids[i]
    {
      RebaseCommute(t.kids[i], v + t.local.x, w + t.local.y);
    }
  }

  /**
   * Two calls of `set_base_pos` in a row act as one that takes, on each
   * axis, the value of the later call if it gives one and else that of the
   * earlier.
   */
  lemma SetBaseTwice(t: PosTree, x1: Option<real>, y1: Option<real>, x2: Option<real>, y2: Option<real>)
    ensures SetBase(SetBase(t, x1, y1), x2, y2) == SetBase(t, if x2.Some? then x2 else x1, if y2.Some? then y2 else y1)
  {
    var t1 := if x1.Some? then Rebase(t, X, x1.value) else t;
    var u := SetBase(t, x1, y1);
    if x2.Some? && y1.Some? {
      RebaseCommute(t1, x2.value, y1.value);
    }
    var u1 := if x2.Some? then Rebase(u, X, x2.value) else u;
    var t2 := if x2.Some? then Rebase(t1, X, x2.value) else t1;
    assert u1 == if y1.Some? then Rebase(t2, Y, y1.value) else t2;
    if x1.Some? && x2.Some? {
      RebaseTwice(t, X, x1.value, x2.value);
    }
    if y1.Some? && y2.Some? {
      RebaseTwice(t2, Y, y1.value, y2.value);
    }
  }

  /** Of two calls of `set_local_pos` on the same axis the later one wins. */
  lemma RelocateTwice(t: PosTree, a: Axis, v: real, w: real)
    ensures Relocate(Relocate(t, a, v), a, w) == Relocate(t, a, w)
  {
    var l, r := Relocate(Relocate(t, a, v), a, w), Relocate(t, a, w);
    forall i | 0 <= i < |t.kids|
      ensures l.kids[i] == r.kids[i]
    {
      RebaseTwice(t.kids[i], a, t.base.Get(a) + v, t.base.Get(a) + w);
    }
  }

  /** `set_local_pos` on the two axes commutes. */
  lemma RelocateCommute(t: PosTree, v: real, w: real)
    ensures Relocate(Relocate(t, X, v), Y, w) == Relocate(Relocate(t, Y, w), X, v)
  {
    var l, r := Relocate(Relocate(t, X, v), Y, w), Relocate(Relocate(t, Y, w), X, v);
    forall i | 0 <= i < |t.kids|
      ensures l.kids[i] == r.kids[i]
    {
      RebaseCommute(t.kids[i], t.base.x + v, t.base.y + w);
    }
  }

  /**
   * Two calls of `set_local_pos` in a row act as one that takes, on each
   * axis, the value of the later call if it gives one and else that of the
   * earlier.
   */
  lemma SetLocalTwice(t: PosTree, x1: Option<real>, y1: Option<real>, x2: Option<real>, y2: Option<real>)
    ensures SetLocal(SetLocal(t, x1, y1), x2, y2) == SetLocal(t, if x2.Some? then x2 else x1, if y2.Some? then y2 else y1)
  {
    var t1 := if x1.Some? then Relocate(t, X, x1.value) else t;
    var u := SetLocal(t, x1, y1);
    if x2.Some? && y1.Some? {
      RelocateCommute(t1, x2.value, y1.value);
    }
    var u1 := if x2.Some? then Relocate(u, X, x2.value) else u;
    var t2 := if x2.Some? then Relocate(t1, X, x2.value) else t1;
    assert u1 == if y1.Some? then Relocate(t2, Y, y1.value) else t2;
    if x1.Some? && x2.Some? {
      RelocateTwice(t, X, x1.value, x2.value);
    }
    if y1.Some? && y2.Some? {
      RelocateTwice(t2, Y, y1.value, y2.value);
    }
  }

  // ---------------------------------------------------------------------
  // The earlier stage (12_gui/src/ui/object.rs) sets both axes at once.

  /** `set_base_pos(x, y)` of 12_gui/src/ui/object.rs:152-160. */
  function RebaseBoth(t: PosTree, v: Vec2): PosTree
    decreases t
  {
    var g := v.Plus(t.local);
    Node(t.local, v, g, seq(|t.kids|, i requires 0 <= i < |t.kids| => RebaseBoth(t.kids[i], g)))
  }

  /** `set_loacl_pos(x, y)` of 12_gui/src/ui/object.rs:113-121. */
  function RelocateBoth(t: PosTree, v: Vec2): PosTree
  {
    var g := t.base.Plus(v);
    Node(v, t.base, g, seq(|t.kids|, i requires 0 <= i < |t.kids| => RebaseBoth(t.kids[i], g)))
  }

  /** Setting both axes at once is the later stage's setter with both axes given. */
  lemma {:induction false} RebaseBothIsSetBase(t: PosTree, v: Vec2)
    ensures RebaseBoth(t, v) == SetBase(t, Some(v.x), Some(v.y))
    decreases t
  {
    var g := v.Plus(t.local);
    var r := SetBase(t, Some(v.x), Some(v.y));
    var t1 := Rebase(t, X, v.x);
    assert t1.local == t.local;
    forall i | 0 <= i < |t.kids|
      ensures r.kids[i] == RebaseBoth(t.kids[i], g)
    {
      RebaseBothIsSetBase(t.kids[i], g);
      assert t1.kids[i] == Rebase(t.kids[i], X, g.x);
    }
  }

  lemma RelocateBothIsSetLocal(t: PosTree, v: Vec2)
    ensures RelocateBoth(t, v) == SetLocal(t, Some(v.x), Some(v.y))
  {
    var g := t.base.Plus(v);
    var r := SetLocal(t, Some(v.x), Some(v.y));
    var t1 := Relocate(t, X, v.x);
    forall i | 0 <= i < |t.kids|
      ensures r.kids[i] == RebaseBoth(t.kids[i], g)
    {
      RebaseBothIsSetBase(t.kids[i], g);
      assert t1.kids[i] == Rebase(t.kids[i], X, g.x);
    }
  }

  /** Consequently both setters of the earlier stage leave the whole subtree coherent on both axes. */
  lemma BothCoherent(t: PosTree, v: Vec2)
    ensures Coherent(RebaseBoth(t, v), X) && Coherent(RebaseBoth(t, v), Y)
    ensures Coherent(RelocateBoth(t, v), X) && Coherent(RelocateBoth(t, v), Y)
    ensures RebaseBoth(t, v).base == v && RelocateBoth(t, v).local == v
  {
    RebaseBothIsSetBase(t, v);
    SetBaseSpec(t, Some(v.x), Some(v.y));
    RelocateBothIsSetLocal(t, v);
    SetLocalSpec(t, Some(v.x), Some(v.y));
  }
}
