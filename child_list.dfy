/**
 * Bookkeeping on ordered child lists (`Vec<Rc<RefCell<Object>>>`): moving an
 * entry to the end (the top of the drawing order) with hover-index repair,
 * and the sweep of closed entries.
 */
module ChildList {
  import opened Common

  /** `Vec::remove(i)` followed by `Vec::push` of the removed entry. */
  function MoveToEnd<T>(s: seq<T>, i: nat): (r: seq<T>)
    requires i < |s|
    ensures |r| == |s|
    ensures multiset(r) == multiset(s)
    ensures r[|s| - 1] == s[i]
    ensures forall j :: 0 <= j < i ==> r[j] == s[j]
    ensures forall j :: i <= j < |s| - 1 ==> r[j] == s[j + 1]
  {
    assert s == s[..i] + [s[i]] + s[i + 1..];
    s[..i] + s[i + 1..] + [s[i]]
  }

  /**
   * The repair of a stored hover index after entry `i` of a list of length
   * `len` was moved to the end: later entries shift down by one and the moved
   * entry is now last.
   */
  function FixIndex(h: Option<nat>, i: nat, len: nat): (r: Option<nat>)
    requires i < len
    ensures r.Some? <==> h.Some?
    ensures h.Some? && h.value < len ==> r.value < len
  {
    match h
    case None => None
    case Some(k) =>
      if i < k then Some(k - 1)
      else if i == k then Some(len - 1)
      else Some(k)
  }

  /** A repaired hover index still names the entry it named before the move. */
  lemma FixIndexFollowsEntry<T>(s: seq<T>, i: nat, h: nat)
    requires i < |s| && h < |s|
    ensures FixIndex(Some(h), i, |s|).Some?
    ensures FixIndex(Some(h), i, |s|).value < |s|
    ensures MoveToEnd(s, i)[FixIndex(Some(h), i, |s|).value] == s[h]
  {
  }

  /** Two different hover indices stay different after the repair. */
  lemma FixIndexInjective(i: nat, len: nat, h1: nat, h2: nat)
    requires i < len && h1 < len && h2 < len && h1 != h2
    ensures FixIndex(Some(h1), i, len) != FixIndex(Some(h2), i, len)
  {
  }

  /** The number of entries among the first `k` that are not closed. */
  function Rank(closed: seq<bool>, k: nat): (n: nat)
    requires k <= |closed|
    ensures n <= k
  {
    if k == 0 then 0 else Rank(closed, k - 1) + (if closed[k - 1] then 0 else 1)
  }

  /** The entries whose flag is false, in their original order. */
  function KeepOpen<T>(s: seq<T>, closed: seq<bool>): (r: seq<T>)
    requires |closed| == |s|
    ensures |r| == Rank(closed, |s|)
    decreases |s|
  {
    if |s| == 0 then []
    else
      RankPrefix(closed, |s| - 1, |s| - 1);
      KeepOpen(s[..|s| - 1], closed[..|s| - 1]) + (if closed[|s| - 1] then [] else [s[|s| - 1]])
  }

  lemma RankPrefix(closed: seq<bool>, k: nat, n: nat)
    requires k <= n <= |closed|
    ensures Rank(closed[..n], k) == Rank(closed, k)
  {
    if k > 0 {
      RankPrefix(closed, k - 1, n);
    }
  }

  lemma {:induction false} RankMonotone(closed: seq<bool>, j: nat, k: nat)
    requires j <= k <= |closed|
    ensures Rank(closed, j) <= Rank(closed, k)
    decreases k - j
  {
    if j < k {
      RankMonotone(closed, j, k - 1);
    }
  }

  /**
   * Every open entry survives the sweep at position `Rank(closed, i)`; since
   * `Rank` grows strictly from one open entry to the next, the survivors keep
   * their order and no open entry is lost.
   */
  lemma {:induction false} KeepOpenAt<T>(s: seq<T>, closed: seq<bool>, i: nat)
    requires |closed| == |s| && i < |s| && !closed[i]
    ensures Rank(closed, i) < |KeepOpen(s, closed)|
    ensures KeepOpen(s, closed)[Rank(closed, i)] == s[i]
    decreases |s|
  {
    var n := |s| - 1;
    RankPrefix(closed, n, n);
    RankPrefix(closed, i, n);
    if i < n {
      KeepOpenAt(s[..n], closed[..n], i);
      RankMonotone(closed, i + 1, n);
    }
  }

  /** Open entries that were in order stay in order. */
  lemma {:induction false} RankStrict(closed: seq<bool>, i: nat, j: nat)
    requires i < j <= |closed| && !closed[i]
    ensures Rank(closed, i) < Rank(closed, j)
  {
    RankMonotone(closed, i + 1, j);
  }

  /** Closed entries never survive: every survivor is an open entry. */
  lemma {:induction false} KeepOpenOnlyOpen<T>(s: seq<T>, closed: seq<bool>, k: nat)
    requires |closed| == |s| && k < |KeepOpen(s, closed)|
    ensures exists i :: 0 <= i < |s| && !closed[i] && Rank(closed, i) == k && KeepOpen(s, closed)[k] == s[i]
    decreases |s|
  {
    var n := |s| - 1;
    RankPrefix(closed, n, n);
    if k < |KeepOpen(s[..n], closed[..n])| {
      KeepOpenOnlyOpen(s[..n], closed[..n], k);
      var i :| 0 <= i < n && !closed[..n][i] && Rank(closed[..n], i) == k && KeepOpen(s[..n], closed[..n])[k] == s[..n][i];
      RankPrefix(closed, i, n);
    } else {
      assert KeepOpen(s, closed)[k] == s[n];
    }
  }

  /** Where a hover index points after the sweep: its new position, or none if its entry was closed or it was already out of range. */
  function RemapIndex(closed: seq<bool>, h: Option<nat>): (r: Option<nat>)
    ensures r.Some? ==> r.value < Rank(closed, |closed|)
  {
    match h
    case None => None
    case Some(k) =>
      if k < |closed| && !closed[k] then
        RankMonotone(closed, k + 1, |closed|);
        Some(Rank(closed, k))
      else None
  }

  lemma RemapIndexFollowsEntry<T>(s: seq<T>, closed: seq<bool>, h: nat)
    requires |closed| == |s| && h < |s| && !closed[h]
    ensures RemapIndex(closed, Some(h)).Some?
    ensures KeepOpen(s, closed)[RemapIndex(closed, Some(h)).value] == s[h]
  {
    KeepOpenAt(s, closed, h);
  }

  // ---------------------------------------------------------------------
  // The sweep as the program writes it (12_imgui/src/ui/object.rs:429-437):
  // the indices of closed children are collected in ascending order, then
  // `Vec::remove` is called with each of them in turn on the shrinking list.

  /** Ascending indices, from `from` on, whose flag is set. */
  function ClosedIndices(closed: seq<bool>, from: nat): (r: seq<nat>)
    requires from <= |closed|
    ensures forall k :: 0 <= k < |r| ==> from <= r[k] < |closed| && closed[r[k]]
    decreases |closed| - from
  {
    if from == |closed| then []
    else if closed[from] then [from] + ClosedIndices(closed, from + 1)
    else ClosedIndices(closed, from + 1)
  }

  /** `Vec::remove(i)` for each `i` in turn; `None` when one of them panics. */
  function RemoveEach<T>(s: seq<T>, idx: seq<nat>): Option<seq<T>>
    decreases |idx|
  {
    if |idx| == 0 then Some(s)
    else if idx[0] < |s| then RemoveEach(s[..idx[0]] + s[idx[0] + 1..], idx[1..])
    else None
  }

  function SweepAsWritten<T>(s: seq<T>, closed: seq<bool>): Option<seq<T>>
    requires |closed| == |s|
  {
    RemoveEach(s, ClosedIndices(closed, 0))
  }

  /** Count of closed flags among the first `k`. */
  function ClosedCount(closed: seq<bool>, k: nat): nat
    requires k <= |closed|
  {
    k - Rank(closed, k)
  }

  /** With at most one closed entry the sweep as written is the intended one. */
  lemma {:induction false} SweepAsWrittenWithOneClosed<T>(s: seq<T>, closed: seq<bool>)
    requires |closed| == |s| && ClosedCount(closed, |s|) <= 1
    ensures SweepAsWritten(s, closed) == Some(KeepOpen(s, closed))
  {
    if ClosedCount(closed, |s|) == 0 {
      NoneClosed(s, closed, |s|);
      NoIndicesWhenNoneClosed(closed, 0);
      assert RemoveEach(s, []) == Some(s);
    } else {
      var c := OneClosedAt(closed, |s|);
      OnlyIndexIs(closed, 0, c);
      KeepOpenDropsOne(s, closed, c);
      var rest := s[..c] + s[c + 1..];
      assert [c][1..] == [];
      assert RemoveEach(s, [c]) == RemoveEach(rest, []);
    }
  }

  lemma {:induction false} NoneClosed<T>(s: seq<T>, closed: seq<bool>, k: nat)
    requires |closed| == |s| && k <= |s| && Rank(closed, k) == k
    ensures forall i :: 0 <= i < k ==> !closed[i]
    ensures k == |s| ==> KeepOpen(s, closed) == s
    decreases k
  {
    if k > 0 {
      RankMonotone(closed, k - 1, k);
      NoneClosed(s, closed, k - 1);
    }
    if k == |s| {
      forall i | 0 <= i < |s|
        ensures KeepOpen(s, closed)[i] == s[i]
      {
        KeepOpenAt(s, closed, i);
        RankIdentity(closed, i);
      }
    }
  }

  lemma {:induction false} RankIdentity(closed: seq<bool>, k: nat)
    requires k <= |closed| && forall i :: 0 <= i < k ==> !closed[i]
    ensures Rank(closed, k) == k
  {
    if k > 0 {
      RankIdentity(closed, k - 1);
    }
  }

  lemma {:induction false} NoIndicesWhenNoneClosed(closed: seq<bool>, from: nat)
    requires from <= |closed| && forall i :: from <= i < |closed| ==> !closed[i]
    ensures ClosedIndices(closed, from) == []
    decreases |closed| - from
  {
    if from < |closed| {
      NoIndicesWhenNoneClosed(closed, from + 1);
    }
  }

  /** The position of the only closed flag. */
  lemma {:induction false} OneClosedAt(closed: seq<bool>, k: nat) returns (c: nat)
    requires k <= |closed| && ClosedCount(closed, k) == 1
    ensures c < k && closed[c]
    ensures forall i :: 0 <= i < k && i != c ==> !closed[i]
    ensures Rank(closed, c) == c
  {
    if closed[k - 1] {
      c := k - 1;
      assert Rank(closed, k - 1) == k - 1;
      NoneClosedFlags(closed, k - 1);
    } else {
      c := OneClosedAt(closed, k - 1);
    }
  }

  lemma {:induction false} NoneClosedFlags(closed: seq<bool>, k: nat)
    requires k <= |closed| && Rank(closed, k) == k
    ensures forall i :: 0 <= i < k ==> !closed[i]
  {
    if k > 0 {
      RankMonotone(closed, k - 1, k);
      NoneClosedFlags(closed, k - 1);
    }
  }

  lemma {:induction false} OnlyIndexIs(closed: seq<bool>, from: nat, c: nat)
    requires from <= c < |closed| && closed[c]
    requires forall i :: from <= i < |closed| && i != c ==> !closed[i]
    ensures ClosedIndices(closed, from) == [c]
    decreases |closed| - from
  {
    if from < c {
      OnlyIndexIs(closed, from + 1, c);
    } else {
      NoIndicesWhenNoneClosed(closed, c + 1);
    }
  }

  lemma {:induction false} KeepOpenDropsOne<T>(s: seq<T>, closed: seq<bool>, c: nat)
    requires |closed| == |s| && c < |s| && closed[c]
    requires forall i :: 0 <= i < |s| && i != c ==> !closed[i]
    ensures KeepOpen(s, closed) == s[..c] + s[c + 1..]
  {
    var r := KeepOpen(s, closed);
    var e := s[..c] + s[c + 1..];
    assert Rank(closed, |s|) == |s| - 1 by {
      RankSplit(closed, c);
    }
    forall j | 0 <= j < |e|
      ensures r[j] == e[j]
    {
      var i := if j < c then j else j + 1;
      KeepOpenAt(s, closed, i);
      RankSplit(closed, c);
      if i < c {
        RankIdentity(closed, i);
      } else {
        RankAfter(closed, c, i);
      }
    }
  }

  lemma {:induction false} RankSplit(closed: seq<bool>, c: nat)
    requires c < |closed| && closed[c]
    requires forall i :: 0 <= i < |closed| && i != c ==> !closed[i]
    ensures Rank(closed, c) == c
    ensures Rank(closed, |closed|) == |closed| - 1
  {
    RankIdentity(closed, c);
    RankAfter(closed, c, |closed|);
  }

  lemma {:induction false} RankAfter(closed: seq<bool>, c: nat, k: nat)
    requires c < k <= |closed| && closed[c]
    requires forall i :: 0 <= i < |closed| && i != c ==> !closed[i]
    ensures Rank(closed, k) == k - 1
    decreases k
  {
    if k == c + 1 {
      RankIdentity(closed, c);
    } else {
      RankAfter(closed, c, k - 1);
    }
  }

  /**
   * Two closed children in front of an open one: the program removes index
   * 0, then index 1 of the shortened list, which is the open child, and
   * keeps a closed one.
   */
  lemma SweepAsWrittenDropsOpenChild()
    ensures SweepAsWritten([10, 20, 30], [true, true, false]) == Some([20])
    ensures KeepOpen([10, 20, 30], [true, true, false]) == [30]
  {
    assert ClosedIndices([true, true, false], 0) == [0, 1];
    assert [10, 20, 30][..0] + [10, 20, 30][1..] == [20, 30];
    assert [20, 30][..1] + [20, 30][2..] == [20];
  }

  /** Closed children at the last two positions: the second `remove` is out of bounds and panics. */
  lemma SweepAsWrittenPanics()
    ensures SweepAsWritten([10, 20, 30], [false, true, true]).None?
  {
    assert ClosedIndices([false, true, true], 0) == [1, 2];
    assert [10, 20, 30][..1] + [10, 20, 30][2..] == [10, 30];
  }

  /**
   * The program leaves the hover indices alone after the sweep. With a
   * closed child in front of the hovered one, the old index then names the
   * child after it, or no child at all, where `RemapIndex` follows the
   * hovered child.
   */
  lemma SweepAsWrittenLeavesHoverStale()
    ensures SweepAsWritten([10, 20, 30], [true, false, false]) == Some([20, 30])
    ensures [20, 30][1] != [10, 20, 30][1]
    ensures RemapIndex([true, false, false], Some(1)) == Some(0) && [20, 30][0] == [10, 20, 30][1]
    ensures SweepAsWritten([10, 20], [true, false]) == Some([20]) && 1 >= |[20]|
    ensures RemapIndex([true, false], Some(1)) == Some(0)
  {
    assert ClosedIndices([true, false, false], 0) == [0];
    assert [10, 20, 30][..0] + [10, 20, 30][1..] == [20, 30];
    assert ClosedIndices([true, false], 0) == [0];
    assert [10, 20][..0] + [10, 20][1..] == [20];
  }
}
