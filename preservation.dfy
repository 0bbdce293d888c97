/** The steps of insert and delete, each shown to keep the invariant Wf of
    module Layout (or the part of it that holds in the middle of an
    operation), stated on the arena and the level-0 order as values. */
module Preservation {
  import opened Levels
  import opened Multiplicity
  import opened Layout

  function Max(a: int, b: int): (m: int)
    ensures m >= a && m >= b && (m == a || m == b)
  {
    if a < b then b else a
  }

  // ---------------------------------------------------------------------
  // Reading the invariant

  /** Comparing a node with the query value `v` tells on which side of the
      rank of `v` its position lies. */
  lemma BelowRank(nodes: seq<Element>, order: seq<nat>, v: int, r: int)
    requires Shape(nodes, order) && Increasing(Keys(nodes, order))
    requires -1 <= r <= |order|
    ensures Below(nodes[NodeAt(order, r)].value, v) <==> r < Rank(Keys(nodes, order), v)
  {
    var keys := Keys(nodes, order);
    if 0 <= r < |order| {
      assert nodes[order[r]].value == Value(keys[r]);
    }
  }

  /** One link of a linked level. */
  lemma LinkOf(nodes: seq<Element>, order: seq<nat>, q: int, l: nat)
    requires Shape(nodes, order) && LinkedAt(nodes, order, l)
    requires -1 <= q < |order| && l < |nodes[NodeAt(order, q)].next|
    ensures nodes[NodeAt(order, q)].next[l] == NodeAt(order, NextPos(Heights(nodes, order), q, l))
  {
  }

  /** Walking level 0: the node at position k has links exactly when it is
      not the tail, and its level-0 link leads to position k + 1. */
  lemma BottomStep(nodes: seq<Element>, order: seq<nat>, num: int, k: int)
    requires Wf(nodes, order, num) && -1 <= k <= |order|
    ensures NodeAt(order, k) < |nodes|
    ensures 0 < |nodes[NodeAt(order, k)].next| <==> k < |order|
    ensures k < |order| ==> nodes[NodeAt(order, k)].next[0] == NodeAt(order, k + 1)
  {
    if k < |order| {
      LinkOf(nodes, order, k, 0);
      NextPosBottom(Heights(nodes, order), k);
    }
  }

  /** One step of the search for `v` at level h from position e: the link
      followed, and whether it still leads below `v`. */
  lemma SearchStep(nodes: seq<Element>, order: seq<nat>, num: int, v: int, e: int, h: nat)
    requires Wf(nodes, order, num)
    requires -1 <= e < |order| && h < |nodes[NodeAt(order, e)].next|
    ensures var s := nodes[NodeAt(order, e)].next[h];
      var r := NextPos(Heights(nodes, order), e, h);
      s == NodeAt(order, r) && s < |nodes| &&
      (Below(nodes[s].value, v) <==> r < Rank(Keys(nodes, order), v))
  {
    var r := NextPos(Heights(nodes, order), e, h);
    assert LinkedAt(nodes, order, h);
    BelowRank(nodes, order, v, r);
  }

  /** A search-path entry for `v` is below `v`, and its link is not. */
  lemma PathBelow(nodes: seq<Element>, order: seq<nat>, num: int, v: int, pos: int, h: nat)
    requires Wf(nodes, order, num) && h < |nodes[Head].next|
    requires PathEntry(Heights(nodes, order), Rank(Keys(nodes, order), v), pos, h)
    ensures var x := NodeAt(order, pos);
      x < |nodes| && h < |nodes[x].next| && nodes[x].next[h] < |nodes| &&
      Below(nodes[x].value, v) && !Below(nodes[nodes[x].next[h]].value, v)
  {
    SearchStep(nodes, order, num, v, pos, h);
    BelowRank(nodes, order, v, pos);
  }

  /** The search path's entry on level 0 links to the node at the rank of `v`. */
  lemma PathTarget(nodes: seq<Element>, order: seq<nat>, num: int, v: int, pos: int)
    requires Wf(nodes, order, num)
    requires PathEntry(Heights(nodes, order), Rank(Keys(nodes, order), v), pos, 0)
    ensures nodes[NodeAt(order, pos)].next[0] == NodeAt(order, Rank(Keys(nodes, order), v))
  {
    PathBottom(nodes, order, v, pos);
    LinkOf(nodes, order, pos, 0);
    NextPosBottom(Heights(nodes, order), pos);
  }

  /** Two arenas that agree on the value, quantity and height of every
      listed node describe the same list contents. */
  lemma SameEntries(a: seq<Element>, b: seq<Element>, order: seq<nat>)
    requires Shape(a, order) && Shape(b, order)
    requires forall k :: 0 <= k < |order| ==>
      a[order[k]].value == b[order[k]].value && a[order[k]].quantity == b[order[k]].quantity &&
      |a[order[k]].next| == |b[order[k]].next|
    ensures Keys(a, order) == Keys(b, order) && Quantities(a, order) == Quantities(b, order)
    ensures Heights(a, order) == Heights(b, order) && Bag(a, order) == Bag(b, order)
  {
  }

  /** Overwriting a link at level h leaves every other level linked. */
  lemma SetNextFrame(a: seq<Element>, order: seq<nat>, i: nat, h: nat, x: nat, l: nat)
    requires Shape(a, order) && i < |a| && h < |a[i].next| && l != h
    requires LinkedAt(a, order, l)
    ensures Shape(SetNext(a, i, h, x), order) && LinkedAt(SetNext(a, i, h, x), order, l)
  {
    SetNextShape(a, order, i, h, x);
    LinkedAtFrame(a, SetNext(a, i, h, x), order, l);
  }

  /** `b` is `a` with links changed only: same nodes, same values,
      quantities and heights. */
  ghost predicate SameFields(a: seq<Element>, b: seq<Element>)
  {
    |a| == |b| &&
    forall i :: 0 <= i < |a| ==>
      a[i].value == b[i].value && a[i].quantity == b[i].quantity && |a[i].next| == |b[i].next|
  }

  /** Changing links only keeps the shape and the contents. */
  lemma SameFieldsList(a: seq<Element>, b: seq<Element>, order: seq<nat>)
    requires Shape(a, order) && SameFields(a, b)
    ensures Shape(b, order)
    ensures Keys(a, order) == Keys(b, order) && Quantities(a, order) == Quantities(b, order)
    ensures Heights(a, order) == Heights(b, order) && Bag(a, order) == Bag(b, order)
  {
    assert |b[Tail].next| == 0;
    SameEntries(a, b, order);
  }

  /** Overwriting a link at level h leaves the shape, the heights and every
      other level's links as they were. */
  lemma SetNextLevels(a: seq<Element>, order: seq<nat>, i: nat, h: nat, x: nat)
    requires Shape(a, order) && i < |a| && h < |a[i].next|
    ensures Shape(SetNext(a, i, h, x), order)
    ensures Heights(SetNext(a, i, h, x), order) == Heights(a, order)
    ensures forall l: nat :: l != h && LinkedAt(a, order, l) ==> LinkedAt(SetNext(a, i, h, x), order, l)
  {
    SetNextShape(a, order, i, h, x);
    forall l: nat | l != h && LinkedAt(a, order, l)
      ensures LinkedAt(SetNext(a, i, h, x), order, l)
    {
      SetNextFrame(a, order, i, h, x, l);
    }
  }

  // ---------------------------------------------------------------------
  // Insert

  /** Once the new node `n` holding `v` is linked at every level it
      reaches, the enlarged list satisfies the invariant and holds one more
      copy of `v`. */
  lemma InsertFinish(a: seq<Element>, order: seq<nat>, p: nat, n: nat, v: int, order': seq<nat>)
    requires Shape(a, order) && Increasing(Keys(a, order))
    requires p == Rank(Keys(a, order), v) && v !in Keys(a, order)
    requires 2 <= n < |a| && forall k :: 0 <= k < |order| ==> order[k] != n
    requires a[n].value == Value(v) && a[n].quantity == 1 && 1 <= |a[n].next| <= |a[Head].next|
    requires |a[n].next| == |a[Head].next| || TopOccupied(a, order)
    requires order' == order[..p] + [n] + order[p..] && Shape(a, order')
    requires forall l: nat :: l < |a[n].next| ==> LinkedAt(a, order', l)
    requires forall l: nat :: |a[n].next| <= l ==> LinkedAt(a, order, l)
    ensures Wf(a, order', |Bag(a, order)| + 1)
    ensures Keys(a, order') == Keys(a, order)[..p] + [v] + Keys(a, order)[p..]
    ensures Bag(a, order') == Bag(a, order) + multiset{v}
  {
    InsertEntries(a, order, p, n, v, order');
    forall l: nat
      ensures LinkedAt(a, order', l)
    {
      if |a[n].next| <= l {
        InsertOffLevel(a, order, p, n, l);
      }
    }
    InsertTop(a, order, p, n, order');
  }

  /** The values and quantities of the enlarged list. */
  lemma InsertEntries(a: seq<Element>, order: seq<nat>, p: nat, n: nat, v: int, order': seq<nat>)
    requires Shape(a, order) && Increasing(Keys(a, order))
    requires p == Rank(Keys(a, order), v) && v !in Keys(a, order)
    requires 2 <= n < |a| && a[n].value == Value(v) && a[n].quantity == 1
    requires order' == order[..p] + [n] + order[p..] && Shape(a, order')
    ensures Keys(a, order') == Keys(a, order)[..p] + [v] + Keys(a, order)[p..]
    ensures Increasing(Keys(a, order'))
    ensures Bag(a, order') == Bag(a, order) + multiset{v}
  {
    var keys, qs := Keys(a, order), Quantities(a, order);
    EntriesInsert(a, order, p, n, order');
    assert forall k :: p <= k < |keys| ==> v < keys[k] by {
      assert forall k :: 0 <= k < |keys| ==> keys[k] != v;
    }
    IncreasingInsert(keys, p, v);
    BagOfInsert(keys, qs, p, v);
  }

  lemma EntriesInsert(a: seq<Element>, order: seq<nat>, p: nat, n: nat, order': seq<nat>)
    requires Shape(a, order) && p <= |order| && 2 <= n < |a| && a[n].value.Value?
    requires order' == order[..p] + [n] + order[p..] && Shape(a, order')
    ensures var keys, qs := Keys(a, order), Quantities(a, order);
      Keys(a, order') == keys[..p] + [a[n].value.v] + keys[p..] &&
      Quantities(a, order') == qs[..p] + [a[n].quantity] + qs[p..]
  {
    assert forall k :: 0 <= k < |order'| ==> order'[k] == if k < p then order[k] else if k == p then n else order[k - 1];
  }

  /** The top level of the enlarged list is occupied: by the new node when
      it is as tall as the head, by the former occupant otherwise. */
  lemma InsertTop(a: seq<Element>, order: seq<nat>, p: nat, n: nat, order': seq<nat>)
    requires Shape(a, order) && p <= |order| && n < |a|
    requires 1 <= |a[n].next| <= |a[Head].next|
    requires |a[n].next| == |a[Head].next| || TopOccupied(a, order)
    requires order' == order[..p] + [n] + order[p..] && Shape(a, order')
    ensures TopOccupied(a, order')
  {
    var hs := Heights(a, order);
    var x := |a[n].next|;
    var top := |a[Head].next|;
    HeightsInsert(a, order, p, n);
    if top > 1 {
      var hs' := InsertAt(hs, p, x);
      if x == top {
        assert hs'[p] > top - 1;
      } else {
        InsertNextPosOld(hs, p, x, -1, top - 1);
      }
    }
  }

  /** The levels the insert added on top lead from the head to the new node
      and from it to the tail. */
  lemma NewTopLevels(a: seq<Element>, order: seq<nat>, p: nat, hs0: seq<nat>, top0: nat)
    requires Shape(a, order) && Linked(a, order) && p < |order| && p <= |hs0|
    requires Heights(a, order) == InsertAt(hs0, p, |a[order[p]].next|)
    requires forall k :: 0 <= k < |hs0| ==> hs0[k] <= top0
    ensures forall l :: top0 <= l < |a[order[p]].next| ==>
      l < |a[Head].next| && a[Head].next[l] == order[p] && a[order[p]].next[l] == Tail
  {
    forall l | top0 <= l < |a[order[p]].next|
      ensures l < |a[Head].next| && a[Head].next[l] == order[p] && a[order[p]].next[l] == Tail
    {
      NewTopLevel(a, order, p, hs0, top0, l);
    }
  }

  /** One level of NewTopLevels. */
  lemma NewTopLevel(a: seq<Element>, order: seq<nat>, p: nat, hs0: seq<nat>, top0: nat, l: nat)
    requires Shape(a, order) && Linked(a, order) && p < |order| && p <= |hs0|
    requires Heights(a, order) == InsertAt(hs0, p, |a[order[p]].next|)
    requires forall k :: 0 <= k < |hs0| ==> hs0[k] <= top0
    requires top0 <= l < |a[order[p]].next|
    ensures l < |a[Head].next| && a[Head].next[l] == order[p] && a[order[p]].next[l] == Tail
  {
    var hs := Heights(a, order);
    NextPosUnique(hs, -1, l, p);
    NextPosUnique(hs, p, l, |order|);
    LinkOf(a, order, -1, l);
    LinkOf(a, order, p, l);
  }

  /** A duplicate insert: one more copy of the value of the node at position k. */
  lemma BumpQuantity(a: seq<Element>, order: seq<nat>, num: int, k: nat, b: seq<Element>)
    requires Wf(a, order, num) && k < |order|
    requires b == a[order[k] := a[order[k]].(quantity := a[order[k]].quantity + 1)]
    ensures Wf(b, order, num + 1) && Keys(b, order) == Keys(a, order)
    ensures Bag(b, order) == Bag(a, order) + multiset{Keys(a, order)[k]}
  {
    QuantityShape(a, order, k, a[order[k]].quantity + 1, b);
    BagOfBump(Keys(a, order), Quantities(a, order), k);
  }

  /** A delete of one of several copies: one copy fewer. */
  lemma DropQuantity(a: seq<Element>, order: seq<nat>, num: int, k: nat, b: seq<Element>)
    requires Wf(a, order, num) && k < |order| && 2 <= a[order[k]].quantity
    requires b == a[order[k] := a[order[k]].(quantity := a[order[k]].quantity - 1)]
    ensures Wf(b, order, num - 1) && Keys(b, order) == Keys(a, order)
    ensures Bag(b, order) == Bag(a, order) - multiset{Keys(a, order)[k]}
  {
    QuantityShape(a, order, k, a[order[k]].quantity - 1, b);
    BagOfDrop(Keys(a, order), Quantities(a, order), k);
  }

  /** Changing the quantity of a listed node keeps the shape and the links. */
  lemma QuantityShape(a: seq<Element>, order: seq<nat>, k: nat, c: nat, b: seq<Element>)
    requires Shape(a, order) && Increasing(Keys(a, order)) && Linked(a, order) && TopOccupied(a, order)
    requires k < |order| && 1 <= c
    requires b == a[order[k] := a[order[k]].(quantity := c)]
    ensures Shape(b, order) && Increasing(Keys(b, order)) && Linked(b, order) && TopOccupied(b, order)
    ensures Keys(b, order) == Keys(a, order) && Heights(b, order) == Heights(a, order)
    ensures Quantities(b, order) == Quantities(a, order)[k := c]
  {
    OrderDistinct(a, order);
    assert Shape(b, order);
    assert Keys(b, order) == Keys(a, order);
    assert Heights(b, order) == Heights(a, order);
    assert Quantities(b, order) == Quantities(a, order)[k := c];
    forall l: nat
      ensures LinkedAt(b, order, l)
    {
      assert LinkedAt(a, order, l);
      LinkedAtFrame(a, b, order, l);
    }
  }

  // ---------------------------------------------------------------------
  // Delete

  /** A level on which the unlinking did not leave the head pointing at the
      tail still holds a node. */
  lemma LevelOccupied(b: seq<Element>, order: seq<nat>, pa: int, h: nat)
    requires Shape(b, order) && LinkedAt(b, order, h)
    requires -1 <= pa < |order| && h < |b[NodeAt(order, pa)].next|
    requires !(NodeAt(order, pa) == Head && b[Head].next[h] == Tail)
    ensures NextPos(Heights(b, order), -1, h) < |order|
  {
    var hs := Heights(b, order);
    if pa >= 0 {
      assert h < hs[pa];
    } else {
      assert b[Head].next[h] == NodeAt(order, NextPos(hs, -1, h));
    }
  }

  /** The head leading to the tail at level h after the unlinking means no
      node reaches level h; cutting the head down to max(1, h) levels then
      restores the invariant. */
  lemma ShrinkFinish(a: seq<Element>, order: seq<nat>, h: nat, b: seq<Element>)
    requires Shape(a, order) && h < |a[Head].next| && a[Head].next[h] == Tail
    requires forall l: nat :: l <= h ==> LinkedAt(a, order, l)
    requires forall l: nat :: l < h ==> NextPos(Heights(a, order), -1, l) < |order|
    requires b == a[Head := a[Head].(next := a[Head].next[..Max(1, h)])]
    ensures Shape(b, order) && Linked(b, order) && TopOccupied(b, order)
    ensures Keys(b, order) == Keys(a, order) && Quantities(b, order) == Quantities(a, order)
    ensures Heights(b, order) == Heights(a, order) && Bag(b, order) == Bag(a, order)
  {
    var hs := Heights(a, order);
    assert LinkedAt(a, order, h);
    assert NextPos(hs, -1, h) == |order| by {
      assert a[Head].next[h] == NodeAt(order, NextPos(hs, -1, h));
    }
    assert forall k :: 0 <= k < |order| ==> hs[k] <= h;
    assert forall k :: 0 <= k < |order| ==> b[order[k]] == a[order[k]];
    assert Shape(b, order);
    SameEntries(a, b, order);
    forall l: nat
      ensures LinkedAt(b, order, l)
    {
      if l < Max(1, h) {
        LinkedAtFrame(a, b, order, l);
      } else {
        forall q | -1 <= q < |order|
          ensures !(l < |b[NodeAt(order, q)].next|)
        {
          if q >= 0 {
            assert hs[q] <= h;
          }
        }
      }
    }
  }

  /** Once the node at position p is unlinked from every level it reached,
      the shortened list satisfies the invariant, less that node's copies. */
  lemma RemoveFinish(a: seq<Element>, order: seq<nat>, p: nat, order': seq<nat>)
    requires p < |order| && Shape(a, order) && Increasing(Keys(a, order)) && TopOccupied(a, order)
    requires order' == order[..p] + order[p + 1..] && Shape(a, order')
    requires forall l: nat :: l < |a[order[p]].next| ==> LinkedAt(a, order', l)
    requires forall l: nat :: |a[order[p]].next| <= l ==> LinkedAt(a, order, l)
    requires forall l: nat :: l < |a[order[p]].next| ==> NextPos(Heights(a, order'), -1, l) < |order'|
    ensures Linked(a, order') && TopOccupied(a, order')
  {
    var hs := Heights(a, order);
    var x := |a[order[p]].next|;
    OrderDistinct(a, order);
    HeightsRemove(a, order, p);
    forall l: nat
      ensures LinkedAt(a, order', l)
    {
      if x <= l {
        RemoveOffLevel(a, order, p, l);
      }
    }
    var top := |a[Head].next|;
    if top > 1 && x <= top - 1 {
      RemoveNextPos(hs, p, -1, top - 1);
    }
  }

  /** The values and quantities of the shortened list, when the removed
      node held a single copy. */
  lemma RemoveEntries(a: seq<Element>, order: seq<nat>, p: nat, order': seq<nat>)
    requires p < |order| && Shape(a, order) && Increasing(Keys(a, order)) && a[order[p]].quantity == 1
    requires order' == order[..p] + order[p + 1..] && Shape(a, order')
    ensures Keys(a, order') == Keys(a, order)[..p] + Keys(a, order)[p + 1..]
    ensures Quantities(a, order') == Quantities(a, order)[..p] + Quantities(a, order)[p + 1..]
    ensures Increasing(Keys(a, order'))
    ensures Bag(a, order') + multiset{Keys(a, order)[p]} == Bag(a, order)
    ensures Bag(a, order') == Bag(a, order) - multiset{Keys(a, order)[p]}
  {
    var keys, qs := Keys(a, order), Quantities(a, order);
    RemoveSeqs(a, order, p, order');
    IncreasingRemove(keys, p);
    BagOfRemove(keys, qs, p);
    assert Copies(keys[p], qs[p]) == multiset{keys[p]};
    OneFewer(Bag(a, order'), Bag(a, order), keys[p]);
  }

  /** The entries of the list without position p. */
  lemma RemoveSeqs(a: seq<Element>, order: seq<nat>, p: nat, order': seq<nat>)
    requires p < |order| && Shape(a, order)
    requires order' == order[..p] + order[p + 1..] && Shape(a, order')
    ensures Keys(a, order') == Keys(a, order)[..p] + Keys(a, order)[p + 1..]
    ensures Quantities(a, order') == Quantities(a, order)[..p] + Quantities(a, order)[p + 1..]
  {
    assert forall k :: 0 <= k < |order'| ==> order'[k] == order[if k < p then k else k + 1];
  }

  /** The node after the level-0 path entry holds `v` exactly when `v` is
      stored, and it is then the node at v's position. */
  lemma TargetFound(nodes: seq<Element>, order: seq<nat>, num: int, v: int, t: nat)
    requires Wf(nodes, order, num) && t == NodeAt(order, Rank(Keys(nodes, order), v))
    ensures t < |nodes|
    ensures nodes[t].value == Value(v) <==> v in Keys(nodes, order)
    ensures v in Keys(nodes, order) ==>
      Rank(Keys(nodes, order), v) < |order| && t == order[Rank(Keys(nodes, order), v)]
    ensures v in Bag(nodes, order) <==> v in Keys(nodes, order)
    ensures v in Keys(nodes, order) ==> Bag(nodes, order)[v] == nodes[t].quantity
  {
    var keys, qs := Keys(nodes, order), Quantities(nodes, order);
    RankFinds(keys, v);
    BagOfMembers(keys, qs, v);
    if v in keys {
      BagOfAt(keys, qs, Rank(keys, v));
    }
  }

  /** Insert of a stored value: one more copy at its node. */
  lemma BumpValue(a: seq<Element>, order: seq<nat>, num: int, v: int, t: nat, b: seq<Element>, num': int)
    requires Wf(a, order, num) && t == NodeAt(order, Rank(Keys(a, order), v))
    requires t < |a| && a[t].value == Value(v)
    requires b == SetQuantity(a, t, a[t].quantity + 1) && num' == num + 1
    ensures v in Keys(a, order) && t == order[Rank(Keys(a, order), v)]
    ensures Wf(b, order, num') && Bag(b, order) == Bag(a, order) + multiset{v}
  {
    TargetFound(a, order, num, v, t);
    BumpQuantity(a, order, num, Rank(Keys(a, order), v), b);
  }

  /** Delete of a value stored more than once: one copy fewer at its node. */
  lemma DropValue(a: seq<Element>, order: seq<nat>, num: int, v: int, t: nat, b: seq<Element>, num': int)
    requires Wf(a, order, num) && t == NodeAt(order, Rank(Keys(a, order), v))
    requires t < |a| && a[t].value == Value(v) && 2 <= a[t].quantity
    requires b == SetQuantity(a, t, a[t].quantity - 1) && num' == num - 1
    ensures v in Keys(a, order) && t == order[Rank(Keys(a, order), v)]
    ensures Wf(b, order, num') && Bag(b, order) == Bag(a, order) - multiset{v}
  {
    TargetFound(a, order, num, v, t);
    DropQuantity(a, order, num, Rank(Keys(a, order), v), b);
  }
}
