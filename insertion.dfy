/** The states an insert of a new value passes through, each a predicate on
    the arena, and the lemmas that carry one state to the next. */
module Insertion {
  import opened Levels
  import opened Multiplicity
  import opened Layout
  import opened Preservation

  /** A new node for `v`: one copy, `height` links, all to the tail until
      it is spliced in. */
  function NewElement(v: int, height: nat): (e: Element)
    ensures e.value == Value(v) && e.quantity == 1 && |e.next| == height
  {
    Element(Value(v), 1, seq(height, _ => Tail))
  }

  /** `a` is `a0` with the new node appended at index |a0| and with the head
      grown, by levels leading to the tail, to at most `height` levels. */
  ghost predicate Prepared(a0: seq<Element>, v: int, height: nat, a: seq<Element>)
  {
    2 <= |a0| && |a| == |a0| + 1 && a[|a0|] == NewElement(v, height) &&
    (forall i :: 0 <= i < |a0| && i != Head ==> a[i] == a0[i]) &&
    a[Head].value == a0[Head].value && a[Head].quantity == a0[Head].quantity &&
    |a0[Head].next| <= |a[Head].next| &&
    (|a[Head].next| == |a0[Head].next| || |a[Head].next| <= height) &&
    a[Head].next[..|a0[Head].next|] == a0[Head].next &&
    (forall l :: |a0[Head].next| <= l < |a[Head].next| ==> a[Head].next[l] == Tail)
  }

  lemma PrepareAppend(a0: seq<Element>, v: int, height: nat)
    requires 2 <= |a0|
    ensures Prepared(a0, v, height, a0 + [NewElement(v, height)])
  {
    var a := a0 + [NewElement(v, height)];
    assert a[Head].next[..|a0[Head].next|] == a0[Head].next;
  }

  lemma PrepareGrow(a0: seq<Element>, v: int, height: nat, a: seq<Element>)
    requires Prepared(a0, v, height, a) && |a[Head].next| < height
    ensures Prepared(a0, v, height, a[Head := a[Head].(next := a[Head].next + [Tail])])
  {
    var b := a[Head := a[Head].(next := a[Head].next + [Tail])];
    assert b[Head].next[..|a0[Head].next|] == a[Head].next[..|a0[Head].next|];
  }

  /** A prepared arena still holds the list, linked at every level. */
  lemma PreparedList(a0: seq<Element>, order: seq<nat>, num: int, v: int, height: nat, a: seq<Element>)
    requires Wf(a0, order, num) && Prepared(a0, v, height, a)
    ensures Shape(a, order) && Linked(a, order)
    ensures Keys(a, order) == Keys(a0, order) && Quantities(a, order) == Quantities(a0, order)
    ensures Heights(a, order) == Heights(a0, order) && Bag(a, order) == Bag(a0, order)
    ensures |a[Head].next| == |a0[Head].next| ==> TopOccupied(a, order)
  {
    assert forall k :: 0 <= k < |order| ==> a[order[k]] == a0[order[k]];
    assert Shape(a, order);
    SameEntries(a0, a, order);
    forall l: nat
      ensures LinkedAt(a, order, l)
    {
      PreparedLevel(a0, order, v, height, a, l);
    }
  }

  /** Level l of the prepared arena: an old level keeps its links, a new
      one leads from the head straight to the tail. */
  lemma PreparedLevel(a0: seq<Element>, order: seq<nat>, v: int, height: nat, a: seq<Element>, l: nat)
    requires Shape(a0, order) && Prepared(a0, v, height, a) && Shape(a, order)
    requires forall k :: 0 <= k < |order| ==> a[order[k]] == a0[order[k]]
    requires Heights(a, order) == Heights(a0, order)
    requires l < |a0[Head].next| ==> LinkedAt(a0, order, l)
    ensures LinkedAt(a, order, l)
  {
    var top0 := |a0[Head].next|;
    if l < top0 {
      assert a[Head].next[l] == a0[Head].next[l] by {
        assert a[Head].next[..top0][l] == a0[Head].next[l];
      }
      LinkedAtFrame(a0, a, order, l);
    } else {
      NextPosEmptyLevel(Heights(a0, order), -1, l);
    }
  }


  /** A level the head did not reach before the insert: the search path
      starts it at the head. */
  lemma TopEntry(a0: seq<Element>, order: seq<nat>, num: int, v: int, l: nat)
    requires Wf(a0, order, num) && |a0[Head].next| <= l
    ensures PathEntry(Heights(a0, order), Rank(Keys(a0, order), v), -1, l)
  {
    NextPosEmptyLevel(Heights(a0, order), -1, l);
  }

  /** Levels below h link the enlarged list `order'`, the others the list
      `order` without the new node `n`; only links differ from `mid`. */
  ghost predicate Splicing(mid: seq<Element>, order: seq<nat>, order': seq<nat>, n: nat, a: seq<Element>, h: nat)
  {
    Shape(mid, order) && SameFields(mid, a) && n < |a| && n !in order &&
    Shape(a, order) && Shape(a, order') &&
    (forall l: nat :: h <= l ==> LinkedAt(a, order, l)) &&
    (forall l: nat :: l < h ==> LinkedAt(a, order', l))
  }

  lemma StartSplice(a0: seq<Element>, order: seq<nat>, num: int, v: int, height: nat, mid: seq<Element>,
                    p: nat, order': seq<nat>)
    requires Wf(a0, order, num) && Prepared(a0, v, height, mid) && 1 <= height <= |mid[Head].next|
    requires p <= |order| && order' == order[..p] + [|a0|] + order[p..]
    ensures Splicing(mid, order, order', |a0|, mid, 0)
    ensures Increasing(Keys(mid, order)) && Heights(mid, order) == Heights(a0, order)
  {
    PreparedList(a0, order, num, v, height, mid);
    ShapeInsert(mid, order, p, |a0|);
  }

  /** Splicing the new node in at level h, after the path entry `pa`. */
  lemma SpliceStep(mid: seq<Element>, order: seq<nat>, order': seq<nat>, p: nat, n: nat,
                   a: seq<Element>, h: nat, pa: int)
    requires Splicing(mid, order, order', n, a, h) && Increasing(Keys(mid, order))
    requires p <= |order| && order' == order[..p] + [n] + order[p..]
    requires 2 <= n && mid[n].value.Value? && 1 <= mid[n].quantity && h < |mid[n].next| <= |mid[Head].next|
    requires PathEntry(Heights(mid, order), p, pa, h)
    ensures var pre := NodeAt(order, pa);
      h < |a[pre].next| && h < |a[n].next| &&
      Splicing(mid, order, order', n, SetNext(SetNext(a, n, h, a[pre].next[h]), pre, h, n), h + 1)
  {
    var pre := NodeAt(order, pa);
    SameFieldsList(mid, a, order);
    OrderDistinct(a, order);
    SpliceLinks(a, order, p, n, pa, h);
    var b1 := SetNext(a, n, h, a[pre].next[h]);
    var b := SetNext(b1, pre, h, n);
    SetNextLevels(a, order, n, h, a[pre].next[h]);
    SetNextLevels(a, order', n, h, a[pre].next[h]);
    SetNextLevels(b1, order, pre, h, n);
    SetNextLevels(b1, order', pre, h, n);
    assert SameFields(mid, b);
  }

  /** List `order` of arena `a` is list `order0` of arena `a0` with a new
      node at position p, the one appended to the arena at index |a0|: it
      holds one copy of v and has `height` levels, and every other entry
      keeps its value, quantity and height, in the same order. */
  ghost predicate Inserted(a0: seq<Element>, order0: seq<nat>, a: seq<Element>, order: seq<nat>, p: nat, v: int, height: nat)
  {
    Shape(a0, order0) && Shape(a, order) && p <= |order0| &&
    order == order0[..p] + [|a0|] + order0[p..] &&
    Keys(a, order) == Keys(a0, order0)[..p] + [v] + Keys(a0, order0)[p..] &&
    Quantities(a, order) == Quantities(a0, order0)[..p] + [1] + Quantities(a0, order0)[p..] &&
    Heights(a, order) == InsertAt(Heights(a0, order0), p, height)
  }

  /** The head of `a` has grown to `height` levels if it had fewer, and on
      each new level it leads to the new node (index |a0|, of `height`
      levels), which leads to the tail. */
  ghost predicate HeadGrown(a0: seq<Element>, a: seq<Element>, height: nat)
  {
    Head < |a0| < |a| && |a[|a0|].next| == height &&
    |a[Head].next| == Max(|a0[Head].next|, height) &&
    forall l :: |a0[Head].next| <= l < height ==> a[Head].next[l] == |a0| && a[|a0|].next[l] == Tail
  }

  /** With the new node spliced in at all its levels, the enlarged list is
      a skip list again, holding one more copy of `v`. */
  lemma InsertDone(a0: seq<Element>, order: seq<nat>, num: int, v: int, height: nat, p: nat,
                   mid: seq<Element>, a: seq<Element>, order': seq<nat>)
    requires Wf(a0, order, num) && Prepared(a0, v, height, mid) && 1 <= height <= |mid[Head].next|
    requires p == Rank(Keys(a0, order), v) && v !in Keys(a0, order)
    requires order' == order[..p] + [|a0|] + order[p..]
    requires Splicing(mid, order, order', |a0|, a, height)
    ensures Wf(a, order', num + 1)
    ensures Bag(a, order') == Bag(a0, order) + multiset{v}
    ensures Inserted(a0, order, a, order', p, v, height) && HeadGrown(a0, a, height)
  {
    var n := |a0|;
    PreparedList(a0, order, num, v, height, mid);
    SameFieldsList(mid, a, order);
    ShapeInsert(a, order, p, n);
    EntriesInsert(a, order, p, n, order');
    InsertFinish(a, order, p, n, v, order');
    BagOfSize(Keys(a0, order), Quantities(a0, order));
    assert order'[p] == n;
    NewTopLevels(a, order', p, Heights(a0, order), |a0[Head].next|);
  }
}
