/** The arithmetic of skip-list levels.

    The elements strictly between the two sentinels are kept in ascending
    order; `hs[k]` is the height of the element at position `k`.  Position
    -1 stands for the head sentinel and position |hs| for the tail.  An
    element takes part in every level below its height and in no other, so
    the successor of position p at level l is fixed by the heights alone:
    it is the first later position whose height exceeds l, or the tail. */
module Levels {

  /** The position the forward link at level `l` of position `p` leads to. */
  function NextPos(hs: seq<nat>, p: int, l: nat): (q: int)
    requires -1 <= p < |hs|
    ensures p < q <= |hs|
    ensures q < |hs| ==> l < hs[q]
    ensures forall r :: p < r < q ==> hs[r] <= l
    decreases |hs| - p
  {
    if p + 1 == |hs| || l < hs[p + 1] then p + 1 else NextPos(hs, p + 1, l)
  }

  /** The three properties in NextPos's contract determine the successor. */
  lemma NextPosUnique(hs: seq<nat>, p: int, l: nat, q: int)
    requires -1 <= p < q <= |hs|
    requires q < |hs| ==> l < hs[q]
    requires forall r :: p < r < q ==> hs[r] <= l
    ensures NextPos(hs, p, l) == q
  {
  }

  /** Level 0 holds every element, so its successor is the next position. */
  lemma NextPosBottom(hs: seq<nat>, p: int)
    requires -1 <= p < |hs|
    requires forall k :: 0 <= k < |hs| ==> 1 <= hs[k]
    ensures NextPos(hs, p, 0) == p + 1
  {
    NextPosUnique(hs, p, 0, p + 1);
  }

  /** A level above every height is empty: its links all lead to the tail. */
  lemma NextPosEmptyLevel(hs: seq<nat>, p: int, l: nat)
    requires -1 <= p < |hs|
    requires forall k :: 0 <= k < |hs| ==> hs[k] <= l
    ensures NextPos(hs, p, l) == |hs|
  {
    NextPosUnique(hs, p, l, |hs|);
  }

  /** The successor on a higher level is never closer than on a lower one:
      every element of an upper level is also on all lower levels. */
  lemma NextPosMonotone(hs: seq<nat>, p: int, l1: nat, l2: nat)
    requires -1 <= p < |hs|
    requires l1 <= l2
    ensures NextPos(hs, p, l1) <= NextPos(hs, p, l2)
  {
  }

  /** Moving forward past positions that are not on level l leaves the
      successor at level l unchanged. */
  lemma NextPosSkip(hs: seq<nat>, p1: int, p2: int, l: nat)
    requires -1 <= p1 < |hs|
    requires p1 <= p2 < NextPos(hs, p1, l)
    ensures NextPos(hs, p2, l) == NextPos(hs, p1, l)
  {
    NextPosUnique(hs, p2, l, NextPos(hs, p1, l));
  }

  // ---------------------------------------------------------------------
  // Inserting a position

  /** The heights after a new element of height `x` is placed at position p. */
  function InsertAt(hs: seq<nat>, p: nat, x: nat): (r: seq<nat>)
    requires p <= |hs|
    ensures |r| == |hs| + 1 && r[p] == x
    ensures forall k :: 0 <= k < p ==> r[k] == hs[k]
    ensures forall k :: p < k < |r| ==> r[k] == hs[k - 1]
  {
    hs[..p] + [x] + hs[p..]
  }

  /** Where an old position (including -1 and |hs|) lands after an insertion at p. */
  function Shift(q: int, p: nat): int
  {
    if q < p then q else q + 1
  }

  /** The successor of the new element: the old successor of its predecessor
      slot, moved one position up. */
  lemma InsertNextPosNew(hs: seq<nat>, p: nat, x: nat, l: nat)
    requires p <= |hs|
    ensures NextPos(InsertAt(hs, p, x), p, l) == NextPos(hs, p - 1, l) + 1
  {
    var r := NextPos(hs, p - 1, l);
    NextPosUnique(InsertAt(hs, p, x), p, l, r + 1);
  }

  /** The successor of an old element after the insertion, by cases: an old
      element before p whose link at level l jumped over p now stops at the
      new element when the new element is on level l; every other link keeps
      its target, shifted to the new numbering. */
  lemma InsertNextPosOld(hs: seq<nat>, p: nat, x: nat, q: int, l: nat)
    requires p <= |hs| && -1 <= q < |hs|
    ensures NextPos(InsertAt(hs, p, x), Shift(q, p), l)
            == if q < p <= NextPos(hs, q, l) && l < x then p else Shift(NextPos(hs, q, l), p)
  {
    var hs' := InsertAt(hs, p, x);
    var r := NextPos(hs, q, l);
    if q < p <= r && l < x {
      NextPosUnique(hs', q, l, p);
    } else if q < p {
      if r < p {
        NextPosUnique(hs', q, l, r);
      } else {
        NextPosUnique(hs', q, l, r + 1);
      }
    } else {
      NextPosUnique(hs', q + 1, l, r + 1);
    }
  }

  // ---------------------------------------------------------------------
  // Removing a position

  /** The heights after the element at position p is removed. */
  function RemoveAt(hs: seq<nat>, p: nat): (r: seq<nat>)
    requires p < |hs|
    ensures |r| == |hs| - 1
    ensures forall k :: 0 <= k < p ==> r[k] == hs[k]
    ensures forall k :: p <= k < |r| ==> r[k] == hs[k + 1]
  {
    hs[..p] + hs[p + 1..]
  }

  /** Where an old position other than p lands after the removal of p. */
  function Unshift(q: int, p: nat): int
  {
    if q < p then q else q - 1
  }

  /** The successor of a remaining element after the removal: a link that led
      to the removed element now leads to the removed element's own
      successor; every other link keeps its target, renumbered. */
  lemma RemoveNextPos(hs: seq<nat>, p: nat, q: int, l: nat)
    requires p < |hs| && -1 <= q < |hs| && q != p
    ensures NextPos(RemoveAt(hs, p), Unshift(q, p), l)
            == if NextPos(hs, q, l) == p then Unshift(NextPos(hs, p, l), p)
               else Unshift(NextPos(hs, q, l), p)
  {
    var hs', q' := RemoveAt(hs, p), Unshift(q, p);
    var r := NextPos(hs, q, l);
    if r == p {
      NextPosUnique(hs', q', l, NextPos(hs, p, l) - 1);
    } else if r < p {
      NextPosUnique(hs', q', l, r);
    } else {
      NextPosUnique(hs', q', l, r - 1);
    }
  }

  // ---------------------------------------------------------------------
  // Search paths and the links that change

  /** `pos` is a valid search-path entry at level `l` for a value of rank p:
      a position on level `l` (or the head) before p whose link at level `l`
      does not lead before p. */
  ghost predicate PathEntry(hs: seq<nat>, p: nat, pos: int, l: nat)
  {
    -1 <= pos < p <= |hs| && p <= NextPos(hs, pos, l) && (pos == -1 || l < hs[pos])
  }

  /** Splicing at level l < x: the new element's link takes over the old
      link of the path entry. */
  lemma SpliceNextNew(hs: seq<nat>, p: nat, x: nat, pa: int, l: nat)
    requires PathEntry(hs, p, pa, l)
    ensures NextPos(InsertAt(hs, p, x), p, l) == NextPos(hs, pa, l) + 1
  {
    InsertNextPosNew(hs, p, x, l);
    NextPosSkip(hs, pa, p - 1, l);
  }

  /** Splicing at level l < x: the path entry now links to the new element. */
  lemma SpliceNextPre(hs: seq<nat>, p: nat, x: nat, pa: int, l: nat)
    requires PathEntry(hs, p, pa, l) && l < x
    ensures NextPos(InsertAt(hs, p, x), pa, l) == p
  {
    InsertNextPosOld(hs, p, x, pa, l);
  }

  /** Splicing: every other element on level l keeps its successor. */
  lemma SpliceNextOther(hs: seq<nat>, p: nat, x: nat, pa: int, l: nat, q: int)
    requires PathEntry(hs, p, pa, l)
    requires -1 <= q < |hs| && q != pa && (q == -1 || l < hs[q])
    ensures NextPos(InsertAt(hs, p, x), Shift(q, p), l) == Shift(NextPos(hs, q, l), p)
  {
    InsertNextPosOld(hs, p, x, q, l);
    if q < pa {
      assert NextPos(hs, q, l) <= pa;
    }
  }

  /** Unlinking position p at level l: the path entry takes over the link of
      the removed element. */
  lemma UnlinkNextPre(hs: seq<nat>, p: nat, pa: int, l: nat)
    requires PathEntry(hs, p, pa, l) && p < |hs| && l < hs[p]
    ensures NextPos(RemoveAt(hs, p), pa, l) == Unshift(NextPos(hs, p, l), p)
  {
    RemoveNextPos(hs, p, pa, l);
  }

  /** Unlinking: every other element on level l keeps its successor. */
  lemma UnlinkNextOther(hs: seq<nat>, p: nat, pa: int, l: nat, q: int)
    requires PathEntry(hs, p, pa, l) && p < |hs| && l < hs[p]
    requires -1 <= q < |hs| && q != pa && q != p && (q == -1 || l < hs[q])
    ensures NextPos(RemoveAt(hs, p), Unshift(q, p), l) == Unshift(NextPos(hs, q, l), p)
  {
    RemoveNextPos(hs, p, q, l);
    if q < pa {
      assert NextPos(hs, q, l) <= pa;
    }
  }
}
