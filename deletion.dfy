/** The states a delete of a value's last copy passes through, each a
    predicate on the arena, and the lemmas that carry one to the next. */
module Deletion {
  import opened Levels
  import opened Multiplicity
  import opened Layout
  import opened Preservation

  /** Levels below h link the list `order'`, which lacks the node `t`, and
      none of them is empty; the other levels still link `order`.  Only
      links differ from `mid`, and t's own links are intact. */
  ghost predicate Unlinking(mid: seq<Element>, order: seq<nat>, order': seq<nat>, t: nat, a: seq<Element>, h: nat)
  {
    Shape(mid, order) && SameFields(mid, a) && t < |a| && a[t] == mid[t] &&
    Shape(a, order) && Shape(a, order') &&
    (forall l: nat :: h <= l ==> LinkedAt(a, order, l)) &&
    (forall l: nat :: l < h ==> LinkedAt(a, order', l)) &&
    (forall l: nat :: l < h ==> NextPos(Heights(a, order'), -1, l) < |order'|)
  }

  /** The unlinking stopped early, with the head cut down: `a` links the
      list `order'` at every level and describes the same entries as `mid`. */
  ghost predicate Shrunk(mid: seq<Element>, order': seq<nat>, a: seq<Element>)
  {
    Shape(mid, order') && Shape(a, order') && Linked(a, order') && TopOccupied(a, order') &&
    Keys(a, order') == Keys(mid, order') && Quantities(a, order') == Quantities(mid, order') &&
    Heights(a, order') == Heights(mid, order')
  }

  lemma StartUnlink(a0: seq<Element>, order: seq<nat>, num: int, p: nat, order': seq<nat>)
    requires Wf(a0, order, num) && p < |order| && order' == order[..p] + order[p + 1..]
    ensures Unlinking(a0, order, order', order[p], a0, 0)
    ensures |a0[order[p]].next| <= |a0[Head].next|
  {
    HeightsRemove(a0, order, p);
  }

  /** Unlinking the node at position p from level h, behind the path
      entry `pa`, moves level h over to the list without it. */
  lemma UnlinkLevel(mid: seq<Element>, order: seq<nat>, order': seq<nat>, p: nat, a: seq<Element>, h: nat, pa: int)
    requires p < |order| && order' == order[..p] + order[p + 1..]
    requires Unlinking(mid, order, order', order[p], a, h) && Increasing(Keys(mid, order))
    requires h < |mid[order[p]].next| && PathEntry(Heights(mid, order), p, pa, h)
    ensures var pre, t := NodeAt(order, pa), order[p];
      pre < |a| && h < |a[pre].next| && h < |a[t].next| && pre == NodeAt(order', pa) &&
      var b := SetNext(a, pre, h, a[t].next[h]);
      SameFields(mid, b) && b[t] == mid[t] && Shape(b, order) && Shape(b, order') &&
      (forall l: nat :: h + 1 <= l ==> LinkedAt(b, order, l)) &&
      (forall l: nat :: l <= h ==> LinkedAt(b, order', l)) &&
      (forall l: nat :: l < h ==> NextPos(Heights(b, order'), -1, l) < |order'|)
  {
    var pre, t, x := NodeAt(order, pa), order[p], a[order[p]].next[h];
    SameFieldsList(mid, a, order);
    OrderDistinct(a, order);
    UnlinkLevelFields(mid, a, order, order', pre, t, h, x);
    UnlinkLevelLinks(a, SetNext(a, pre, h, x), order, order', p, h, pa);
    NodeAtRemove(order, p, pa);
  }

  /** The links after unlinking at level h: level h moves to `order'`. */
  lemma UnlinkLevelLinks(a: seq<Element>, b: seq<Element>, order: seq<nat>, order': seq<nat>, p: nat, h: nat, pa: int)
    requires p < |order| && order' == order[..p] + order[p + 1..] && Shape(a, order)
    requires forall i, j :: 0 <= i < |order| && 0 <= j < |order| && i != j ==> order[i] != order[j]
    requires h < |a[order[p]].next| && PathEntry(Heights(a, order), p, pa, h)
    requires forall l: nat :: h <= l ==> LinkedAt(a, order, l)
    requires forall l: nat :: l < h ==> LinkedAt(a, order', l)
    requires NodeAt(order, pa) < |a| && h < |a[NodeAt(order, pa)].next|
    requires b == SetNext(a, NodeAt(order, pa), h, a[order[p]].next[h]) && Shape(b, order) && Shape(b, order')
    ensures a[NodeAt(order, pa)].next[h] == order[p]
    ensures forall l: nat :: h + 1 <= l ==> LinkedAt(b, order, l)
    ensures forall l: nat :: l <= h ==> LinkedAt(b, order', l)
  {
    var pre, t := NodeAt(order, pa), order[p];
    UnlinkLinks(a, order, p, pa, h);
    SetNextLevels(a, order, pre, h, a[t].next[h]);
    SetNextLevels(a, order', pre, h, a[t].next[h]);
  }

  /** The fields after overwriting a link of `pre`, another node than `t`. */
  lemma UnlinkLevelFields(mid: seq<Element>, a: seq<Element>, order: seq<nat>, order': seq<nat>, pre: nat, t: nat, h: nat, x: nat)
    requires SameFields(mid, a) && t < |a| && a[t] == mid[t]
    requires pre < |a| && pre != t && h < |a[pre].next|
    requires Shape(a, order) && Shape(a, order')
    ensures var b := SetNext(a, pre, h, x);
      SameFields(mid, b) && b[t] == mid[t] && Shape(b, order) && Shape(b, order') &&
      Heights(b, order') == Heights(a, order')
  {
    SetNextShape(a, order, pre, h, x);
    SetNextShape(a, order', pre, h, x);
  }


  /** One pass of the unlinking loop: after unlinking level h, either the
      head leads to the tail there and cutting the head ends the delete,
      or the loop goes on with level h + 1. */
  lemma UnlinkStep(mid: seq<Element>, order: seq<nat>, order': seq<nat>, p: nat, a: seq<Element>, h: nat, pa: int)
    requires p < |order| && order' == order[..p] + order[p + 1..]
    requires Unlinking(mid, order, order', order[p], a, h) && Increasing(Keys(mid, order))
    requires h < |mid[order[p]].next| && PathEntry(Heights(mid, order), p, pa, h)
    ensures var pre, t := NodeAt(order, pa), order[p];
      pre < |a| && h < |a[pre].next| && h < |a[t].next| &&
      var b := SetNext(a, pre, h, a[t].next[h]);
      (pre == Head && b[Head].next[h] == Tail ==>
         Shrunk(mid, order', b[Head := b[Head].(next := b[Head].next[..Max(1, h)])])) &&
      (!(pre == Head && b[Head].next[h] == Tail) ==> Unlinking(mid, order, order', t, b, h + 1))
  {
    var pre, t := NodeAt(order, pa), order[p];
    UnlinkLevel(mid, order, order', p, a, h, pa);
    var b := SetNext(a, pre, h, a[t].next[h]);
    if pre == Head && b[Head].next[h] == Tail {
      var cut := b[Head := b[Head].(next := b[Head].next[..Max(1, h)])];
      ShrinkFinish(b, order', h, cut);
      SameFieldsList(mid, b, order');
    } else {
      LevelOccupied(b, order', pa, h);
    }
  }

  /** List `order` of arena `a` is list `order0` of arena `a0` with the
      entry at position p taken out: every other entry keeps its value,
      quantity and height, in the same order. */
  ghost predicate Removed(a0: seq<Element>, order0: seq<nat>, a: seq<Element>, order: seq<nat>, p: nat)
  {
    Shape(a0, order0) && Shape(a, order) && p < |order0| &&
    order == order0[..p] + order0[p + 1..] &&
    Keys(a, order) == Keys(a0, order0)[..p] + Keys(a0, order0)[p + 1..] &&
    Quantities(a, order) == Quantities(a0, order0)[..p] + Quantities(a0, order0)[p + 1..] &&
    Heights(a, order) == RemoveAt(Heights(a0, order0), p)
  }

  /** Once the last copy of `v` is unlinked, by either way out of the loop,
      the shorter list is a skip list again, without `v`. */
  lemma RemoveDone(a0: seq<Element>, order: seq<nat>, num: int, v: int, p: nat, order': seq<nat>, a: seq<Element>)
    requires Wf(a0, order, num) && p == Rank(Keys(a0, order), v) && p < |order|
    requires Keys(a0, order)[p] == v && a0[order[p]].quantity == 1
    requires order' == order[..p] + order[p + 1..]
    requires Unlinking(a0, order, order', order[p], a, |a0[order[p]].next|) || Shrunk(a0, order', a)
    ensures Wf(a, order', num - 1)
    ensures Bag(a, order') == Bag(a0, order) - multiset{v} && v !in Bag(a, order')
    ensures Removed(a0, order, a, order', p)
  {
    var keys, qs := Keys(a0, order), Quantities(a0, order);
    HeightsRemove(a0, order, p);
    RemoveEntries(a0, order, p, order');
    OrderDistinct(a0, order);
    BagOfAt(keys, qs, p);
    if Unlinking(a0, order, order', order[p], a, |a0[order[p]].next|) {
      SameFieldsList(a0, a, order);
      SameFieldsList(a0, a, order');
      RemoveFinish(a, order, p, order');
    }
    assert Bag(a, order') == Bag(a0, order');
  }
}
