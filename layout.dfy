/** The node layout of the skip list and its invariant.

    The elements live in an arena `nodes`; a forward link is the index of
    the element it points to.  Index `Head` is the head sentinel (value
    -infinity) and index `Tail` the tail sentinel (value +infinity, no
    links).  `order` lists, in ascending order of value, the elements on
    level 0 strictly between the sentinels; arena slots not in `order` are
    elements that have been unlinked and are unreachable. */
module Layout {
  import opened Levels
  import opened Multiplicity

  const Head: nat := 0
  const Tail: nat := 1

  /** A stored value, or one of the two sentinel values. */
  datatype Bound = NegInf | Value(v: int) | PosInf

  /** `b < v` for a finite query value `v`. */
  predicate Below(b: Bound, v: int)
  {
    match b
    case NegInf => true
    case Value(w) => w < v
    case PosInf => false
  }

  /** The strict order of the extended values. */
  predicate Less(a: Bound, b: Bound)
  {
    match a
    case NegInf => !b.NegInf?
    case Value(w) => b.PosInf? || (b.Value? && w < b.v)
    case PosInf => false
  }

  /** One node: its value, how many times that value was inserted, and one
      forward link per level it takes part in. */
  datatype Element = Element(value: Bound, quantity: nat, next: seq<nat>)

  /** The node at list position q; -1 is the head and |order| the tail. */
  function NodeAt(order: seq<nat>, q: int): nat
    requires -1 <= q <= |order|
  {
    if q == -1 then Head else if q == |order| then Tail else order[q]
  }

  /** Sentinels in place; every listed element is a real, counted node of
      height between 1 and the height of the head. */
  ghost predicate Shape(nodes: seq<Element>, order: seq<nat>)
  {
    2 <= |nodes| &&
    nodes[Head].value == NegInf && 1 <= |nodes[Head].next| &&
    nodes[Tail].value == PosInf && nodes[Tail].next == [] &&
    forall k :: 0 <= k < |order| ==>
      2 <= order[k] < |nodes| && nodes[order[k]].value.Value? &&
      1 <= nodes[order[k]].quantity && 1 <= |nodes[order[k]].next| <= |nodes[Head].next|
  }

  ghost function Keys(nodes: seq<Element>, order: seq<nat>): (r: seq<int>)
    requires Shape(nodes, order)
    ensures |r| == |order|
    ensures forall k :: 0 <= k < |order| ==> nodes[order[k]].value == Value(r[k])
  {
    seq(|order|, k requires 0 <= k < |order| => nodes[order[k]].value.v)
  }

  ghost function Heights(nodes: seq<Element>, order: seq<nat>): (r: seq<nat>)
    requires Shape(nodes, order)
    ensures |r| == |order|
    ensures forall k :: 0 <= k < |order| ==> r[k] == |nodes[order[k]].next|
  {
    seq(|order|, k requires 0 <= k < |order| => |nodes[order[k]].next|)
  }

  ghost function Quantities(nodes: seq<Element>, order: seq<nat>): (r: seq<nat>)
    requires Shape(nodes, order)
    ensures |r| == |order|
    ensures forall k :: 0 <= k < |order| ==> r[k] == nodes[order[k]].quantity
  {
    seq(|order|, k requires 0 <= k < |order| => nodes[order[k]].quantity)
  }

  ghost predicate Increasing(keys: seq<int>)
  {
    forall i, j :: 0 <= i < j < |keys| ==> keys[i] < keys[j]
  }

  /** Every link at level `l` leads to the next node (by position) whose
      height exceeds `l`, or to the tail: each level is the sub-chain of
      level 0 made of the nodes tall enough for it. */
  ghost predicate LinkedAt(nodes: seq<Element>, order: seq<nat>, l: nat)
    requires Shape(nodes, order)
  {
    forall q :: -1 <= q < |order| && l < |nodes[NodeAt(order, q)].next| ==>
      nodes[NodeAt(order, q)].next[l] == NodeAt(order, NextPos(Heights(nodes, order), q, l))
  }

  /** The top level of the head is not empty, unless it is level 0. */
  ghost predicate TopOccupied(nodes: seq<Element>, order: seq<nat>)
    requires Shape(nodes, order)
  {
    var top := |nodes[Head].next|;
    top == 1 || NextPos(Heights(nodes, order), -1, top - 1) < |order|
  }

  /** Every level is linked. */
  ghost predicate Linked(nodes: seq<Element>, order: seq<nat>)
    requires Shape(nodes, order)
  {
    forall l: nat :: LinkedAt(nodes, order, l)
  }

  /** The stored values, each as many times as it was inserted. */
  ghost function Bag(nodes: seq<Element>, order: seq<nat>): multiset<int>
    requires Shape(nodes, order)
  {
    BagOf(Keys(nodes, order), Quantities(nodes, order))
  }

  /** The invariant of a skip list with element counter `num`. */
  ghost predicate Wf(nodes: seq<Element>, order: seq<nat>, num: int)
  {
    Shape(nodes, order) &&
    Increasing(Keys(nodes, order)) &&
    Linked(nodes, order) &&
    TopOccupied(nodes, order) &&
    num == |Bag(nodes, order)|
  }

  /** The number of stored values below `v`: the position at which `v` is
      found, or would be inserted. */
  ghost function Rank(keys: seq<int>, v: int): (p: nat)
    requires Increasing(keys)
    ensures p <= |keys|
    ensures forall i :: 0 <= i < p ==> keys[i] < v
    ensures forall i :: p <= i < |keys| ==> v <= keys[i]
  {
    if keys == [] || v <= keys[0] then 0 else 1 + Rank(keys[1..], v)
  }

  /** A value is stored exactly when it sits at its rank. */
  lemma RankFinds(keys: seq<int>, v: int)
    requires Increasing(keys)
    ensures v in keys <==> Rank(keys, v) < |keys| && keys[Rank(keys, v)] == v
  {
  }

  /** Overwrite the quantity of node `i`. */
  function SetQuantity(nodes: seq<Element>, i: nat, q: nat): (r: seq<Element>)
    requires i < |nodes|
    ensures |r| == |nodes| && r[i] == Element(nodes[i].value, q, nodes[i].next)
    ensures forall j :: 0 <= j < |nodes| && j != i ==> r[j] == nodes[j]
  {
    nodes[i := nodes[i].(quantity := q)]
  }

  /** Overwrite the link at level `l` of node `i`. */
  function SetNext(nodes: seq<Element>, i: nat, l: nat, x: nat): (r: seq<Element>)
    requires i < |nodes| && l < |nodes[i].next|
    ensures |r| == |nodes| && r[i].next == nodes[i].next[l := x]
    ensures r[i].value == nodes[i].value && r[i].quantity == nodes[i].quantity
    ensures forall j :: 0 <= j < |nodes| && j != i ==> r[j] == nodes[j]
  {
    nodes[i := nodes[i].(next := nodes[i].next[l := x])]
  }

  // ---------------------------------------------------------------------
  // Basic consequences of the invariant

  /** Strictly increasing values make the listed nodes distinct. */
  lemma OrderDistinct(nodes: seq<Element>, order: seq<nat>)
    requires Shape(nodes, order) && Increasing(Keys(nodes, order))
    ensures forall i, j :: 0 <= i < |order| && 0 <= j < |order| && i != j ==> order[i] != order[j]
  {
    var keys := Keys(nodes, order);
    forall i, j | 0 <= i < |order| && 0 <= j < |order| && i != j
      ensures order[i] != order[j]
    {
      if i < j { assert keys[i] < keys[j]; } else { assert keys[j] < keys[i]; }
    }
  }

  /** Where the search for `v` ends on level 0: at position Rank(keys, v). */
  lemma PathBottom(nodes: seq<Element>, order: seq<nat>, v: int, pos: int)
    requires Shape(nodes, order) && Increasing(Keys(nodes, order))
    requires PathEntry(Heights(nodes, order), Rank(Keys(nodes, order), v), pos, 0)
    ensures pos + 1 == Rank(Keys(nodes, order), v)
  {
    NextPosBottom(Heights(nodes, order), pos);
  }

  /** Every level is strictly increasing from head to tail, and a link at
      level `l` leads to a node that itself takes part in level `l`. */
  lemma LinksIncrease(nodes: seq<Element>, order: seq<nat>, num: int, q: int, l: nat)
    requires Wf(nodes, order, num)
    requires -1 <= q < |order| && l < |nodes[NodeAt(order, q)].next|
    ensures nodes[NodeAt(order, q)].next[l] < |nodes|
    ensures Less(nodes[NodeAt(order, q)].value, nodes[nodes[NodeAt(order, q)].next[l]].value)
    ensures var s := nodes[NodeAt(order, q)].next[l]; s == Tail || l < |nodes[s].next|
  {
    assert LinkedAt(nodes, order, l);
    var keys := Keys(nodes, order);
    var r := NextPos(Heights(nodes, order), q, l);
    if 0 <= q && r < |order| {
      assert keys[q] < keys[r];
    }
  }

  /** No level above level 0 is empty: the head never links straight to the
      tail there. */
  lemma UpperLevelsOccupied(nodes: seq<Element>, order: seq<nat>, num: int, l: nat)
    requires Wf(nodes, order, num)
    requires 1 <= l < |nodes[Head].next|
    ensures nodes[Head].next[l] != Tail
  {
    var hs := Heights(nodes, order);
    var top := |nodes[Head].next|;
    NextPosMonotone(hs, -1, l, top - 1);
    assert LinkedAt(nodes, order, l);
    assert NodeAt(order, -1) == Head;
  }

  /** The head is at least as tall as every node. */
  lemma HeadTallest(nodes: seq<Element>, order: seq<nat>, num: int, k: nat)
    requires Wf(nodes, order, num) && k < |order|
    ensures |nodes[order[k]].next| <= |nodes[Head].next|
  {
  }

  /** A list with no elements has one level, on which the head leads to
      the tail, and counts nothing. */
  lemma EmptyList(nodes: seq<Element>, order: seq<nat>, num: int)
    requires Wf(nodes, order, num) && order == []
    ensures nodes[Head].next == [Tail] && num == 0
  {
    var top := |nodes[Head].next|;
    assert NextPos(Heights(nodes, order), -1, top - 1) >= 0;
    assert LinkedAt(nodes, order, 0);
    assert Keys(nodes, order) == [] && Quantities(nodes, order) == [];
  }

  // ---------------------------------------------------------------------
  // Preservation of the links at one level

  /** The links at level `l` are all that LinkedAt(_, _, l) looks at. */
  lemma LinkedAtFrame(a: seq<Element>, b: seq<Element>, order: seq<nat>, l: nat)
    requires Shape(a, order) && Shape(b, order) && |a| <= |b|
    requires forall k :: 0 <= k < |order| ==> |a[order[k]].next| == |b[order[k]].next|
    requires forall i :: 0 <= i < |a| ==> (l < |a[i].next| <==> l < |b[i].next|)
    requires forall i :: 0 <= i < |a| && l < |a[i].next| ==> a[i].next[l] == b[i].next[l]
    requires LinkedAt(a, order, l)
    ensures LinkedAt(b, order, l)
  {
    assert Heights(a, order) == Heights(b, order);
  }

  /** The list positions after a node is placed at position p. */
  lemma NodeAtInsert(order: seq<nat>, p: nat, n: nat, q: int)
    requires p <= |order| && -1 <= q <= |order|
    ensures NodeAt(order[..p] + [n] + order[p..], Shift(q, p)) == NodeAt(order, q)
  {
  }

  /** A fresh real node no taller than the head can be listed anywhere. */
  lemma ShapeInsert(nodes: seq<Element>, order: seq<nat>, p: nat, n: nat)
    requires p <= |order| && 2 <= n < |nodes| && Shape(nodes, order)
    requires nodes[n].value.Value? && 1 <= nodes[n].quantity && 1 <= |nodes[n].next| <= |nodes[Head].next|
    ensures Shape(nodes, order[..p] + [n] + order[p..])
    ensures Heights(nodes, order[..p] + [n] + order[p..]) == InsertAt(Heights(nodes, order), p, |nodes[n].next|)
  {
    var order' := order[..p] + [n] + order[p..];
    assert forall k :: 0 <= k < |order'| ==> order'[k] == n || order'[k] in order;
    HeightsInsert(nodes, order, p, n);
  }

  lemma HeightsInsert(nodes: seq<Element>, order: seq<nat>, p: nat, n: nat)
    requires p <= |order| && n < |nodes|
    requires Shape(nodes, order) && Shape(nodes, order[..p] + [n] + order[p..])
    ensures Heights(nodes, order[..p] + [n] + order[p..])
            == InsertAt(Heights(nodes, order), p, |nodes[n].next|)
  {
  }

  /** Splicing the new node `n` in after the search-path entry `pa` at
      level `l` links level `l` of the enlarged list. */
  lemma SpliceLinks(a: seq<Element>, order: seq<nat>, p: nat, n: nat, pa: int, l: nat)
    requires p <= |order| && 2 <= n < |a| && Shape(a, order)
    requires forall i, j :: 0 <= i < |order| && 0 <= j < |order| && i != j ==> order[i] != order[j]
    requires forall k :: 0 <= k < |order| ==> order[k] != n
    requires a[n].value.Value? && 1 <= a[n].quantity && l < |a[n].next| <= |a[Head].next|
    requires PathEntry(Heights(a, order), p, pa, l)
    requires LinkedAt(a, order, l)
    ensures var pre := NodeAt(order, pa);
      l < |a[pre].next| && Shape(a, order[..p] + [n] + order[p..]) &&
      LinkedAt(SetNext(SetNext(a, n, l, a[pre].next[l]), pre, l, n), order[..p] + [n] + order[p..], l)
  {
    var order' := order[..p] + [n] + order[p..];
    var hs := Heights(a, order);
    var pre := NodeAt(order, pa);
    var b := SetNext(SetNext(a, n, l, a[pre].next[l]), pre, l, n);
    SpliceShape(a, order, p, n, pa, l);
    SpliceAll(a, b, order, order', hs, p, n, pa, pre, l);
  }

  /** The enlarged list is well shaped before and after the splice at level l. */
  lemma SpliceShape(a: seq<Element>, order: seq<nat>, p: nat, n: nat, pa: int, l: nat)
    requires p <= |order| && 2 <= n < |a| && Shape(a, order)
    requires a[n].value.Value? && 1 <= a[n].quantity && l < |a[n].next| <= |a[Head].next|
    requires PathEntry(Heights(a, order), p, pa, l)
    ensures var pre := NodeAt(order, pa);
      var order' := order[..p] + [n] + order[p..];
      var b := SetNext(SetNext(a, n, l, a[pre].next[l]), pre, l, n);
      l < |a[pre].next| && Shape(a, order') && Shape(b, order') &&
      Heights(b, order') == InsertAt(Heights(a, order), p, |a[n].next|)
  {
    var order' := order[..p] + [n] + order[p..];
    var pre := NodeAt(order, pa);
    assert Shape(a, order') by {
      assert forall k :: 0 <= k < |order'| ==> order'[k] == n || order'[k] in order;
    }
    HeightsInsert(a, order, p, n);
    var b1 := SetNext(a, n, l, a[pre].next[l]);
    SetNextShape(a, order', n, l, a[pre].next[l]);
    SetNextShape(b1, order', pre, l, n);
  }

  /** The links of SpliceLinks, one position at a time. */
  lemma SpliceAll(a: seq<Element>, b: seq<Element>, order: seq<nat>, order': seq<nat>, hs: seq<nat>,
                  p: nat, n: nat, pa: int, pre: nat, l: nat)
    requires p <= |order| && 2 <= n < |a| && Shape(a, order) && hs == Heights(a, order)
    requires forall i, j :: 0 <= i < |order| && 0 <= j < |order| && i != j ==> order[i] != order[j]
    requires forall k :: 0 <= k < |order| ==> order[k] != n
    requires order' == order[..p] + [n] + order[p..]
    requires l < |a[n].next|
    requires PathEntry(hs, p, pa, l) && pre == NodeAt(order, pa) && l < |a[pre].next|
    requires b == SetNext(SetNext(a, n, l, a[pre].next[l]), pre, l, n)
    requires LinkedAt(a, order, l)
    requires Shape(b, order') && Heights(b, order') == InsertAt(hs, p, |a[n].next|)
    ensures LinkedAt(b, order', l)
  {
    var hs' := InsertAt(hs, p, |a[n].next|);
    assert pre != n by {
      if pa >= 0 { assert order[pa] == pre; }
    }
    assert a[pre].next[l] == NodeAt(order, NextPos(hs, pa, l));
    forall q' | -1 <= q' < |order'| && l < |b[NodeAt(order', q')].next|
      ensures b[NodeAt(order', q')].next[l] == NodeAt(order', NextPos(hs', q', l))
    {
      if q' == p {
        assert NodeAt(order', q') == n;
        SpliceLinkNew(a, b, order, order', hs, p, n, pa, pre, l);
      } else {
        var q := if q' < p then q' else q' - 1;
        assert Shift(q, p) == q';
        NodeAtInsert(order, p, n, q);
        SpliceLinkOld(a, b, order, order', hs, p, n, pa, pre, l, q);
      }
    }
  }

  /** SpliceLinks for the new node. */
  lemma SpliceLinkNew(a: seq<Element>, b: seq<Element>, order: seq<nat>, order': seq<nat>, hs: seq<nat>,
                      p: nat, n: nat, pa: int, pre: nat, l: nat)
    requires p <= |order| == |hs| && order' == order[..p] + [n] + order[p..]
    requires n < |a| && l < |a[n].next| && pre < |a| && l < |a[pre].next| && pre != n
    requires PathEntry(hs, p, pa, l) && a[pre].next[l] == NodeAt(order, NextPos(hs, pa, l))
    requires b == SetNext(SetNext(a, n, l, a[pre].next[l]), pre, l, n)
    ensures b[n].next[l] == NodeAt(order', NextPos(InsertAt(hs, p, |a[n].next|), p, l))
  {
    SpliceNextNew(hs, p, |a[n].next|, pa, l);
    NodeAtInsert(order, p, n, NextPos(hs, pa, l));
  }


  /** SpliceLinks for the node at old position q. */
  lemma SpliceLinkOld(a: seq<Element>, b: seq<Element>, order: seq<nat>, order': seq<nat>, hs: seq<nat>,
                      p: nat, n: nat, pa: int, pre: nat, l: nat, q: int)
    requires p <= |order| && 2 <= n < |a| && Shape(a, order) && hs == Heights(a, order)
    requires forall i, j :: 0 <= i < |order| && 0 <= j < |order| && i != j ==> order[i] != order[j]
    requires forall k :: 0 <= k < |order| ==> order[k] != n
    requires order' == order[..p] + [n] + order[p..]
    requires l < |a[n].next|
    requires PathEntry(hs, p, pa, l) && pre == NodeAt(order, pa) && l < |a[pre].next|
    requires b == SetNext(SetNext(a, n, l, a[pre].next[l]), pre, l, n)
    requires LinkedAt(a, order, l)
    requires -1 <= q < |order| && l < |a[NodeAt(order, q)].next|
    ensures b[NodeAt(order, q)].next[l] == NodeAt(order', NextPos(InsertAt(hs, p, |a[n].next|), Shift(q, p), l))
  {
    var x := |a[n].next|;
    var node := NodeAt(order, q);
    if q == pa {
      SpliceNextPre(hs, p, x, pa, l);
      assert order'[p] == n;
    } else {
      assert node != pre && node != n by {
        if pa >= 0 && q >= 0 { assert order[pa] == pre; }
      }
      SpliceNextOther(hs, p, x, pa, l, q);
      NodeAtInsert(order, p, n, NextPos(hs, q, l));
    }
  }

  /** A level the new node does not reach keeps its links. */
  lemma InsertOffLevel(a: seq<Element>, order: seq<nat>, p: nat, n: nat, l: nat)
    requires p <= |order| && 2 <= n < |a| && Shape(a, order)
    requires forall k :: 0 <= k < |order| ==> order[k] != n
    requires a[n].value.Value? && 1 <= a[n].quantity && 1 <= |a[n].next| <= l && |a[n].next| <= |a[Head].next|
    requires LinkedAt(a, order, l)
    ensures Shape(a, order[..p] + [n] + order[p..])
    ensures LinkedAt(a, order[..p] + [n] + order[p..], l)
  {
    var order' := order[..p] + [n] + order[p..];
    var hs := Heights(a, order);
    var x := |a[n].next|;
    assert Shape(a, order') by {
      assert forall k :: 0 <= k < |order'| ==> order'[k] == n || order'[k] in order;
    }
    HeightsInsert(a, order, p, n);
    var hs' := InsertAt(hs, p, x);
    forall q' | -1 <= q' < |order'| && l < |a[NodeAt(order', q')].next|
      ensures a[NodeAt(order', q')].next[l] == NodeAt(order', NextPos(hs', q', l))
    {
      var q := if q' < p then q' else q' - 1;
      assert q' != p by { assert order'[p] == n; }
      assert Shift(q, p) == q';
      NodeAtInsert(order, p, n, q);
      InsertNextPosOld(hs, p, x, q, l);
      NodeAtInsert(order, p, n, NextPos(hs, q, l));
    }
  }

  /** The list positions after the node at position p is removed. */
  lemma NodeAtRemove(order: seq<nat>, p: nat, q: int)
    requires p < |order| && -1 <= q <= |order| && q != p
    ensures NodeAt(order[..p] + order[p + 1..], Unshift(q, p)) == NodeAt(order, q)
  {
  }

  lemma HeightsRemove(nodes: seq<Element>, order: seq<nat>, p: nat)
    requires p < |order| && Shape(nodes, order)
    ensures Shape(nodes, order[..p] + order[p + 1..])
    ensures Heights(nodes, order[..p] + order[p + 1..]) == RemoveAt(Heights(nodes, order), p)
  {
    var order' := order[..p] + order[p + 1..];
    assert forall k :: 0 <= k < |order'| ==> order'[k] == order[if k < p then k else k + 1];
  }

  /** Overwriting a link keeps the shape and the heights. */
  lemma SetNextShape(a: seq<Element>, order: seq<nat>, i: nat, l: nat, x: nat)
    requires Shape(a, order) && i < |a| && l < |a[i].next|
    ensures Shape(SetNext(a, i, l, x), order)
    ensures Heights(SetNext(a, i, l, x), order) == Heights(a, order)
  {
    var b := SetNext(a, i, l, x);
    assert forall k :: 0 <= k < |order| ==> |b[order[k]].next| == |a[order[k]].next|;
  }

  /** Unlinking the node at position p from its search-path entry `pa` at
      level `l` links level `l` of the shortened list. */
  lemma UnlinkLinks(a: seq<Element>, order: seq<nat>, p: nat, pa: int, l: nat)
    requires p < |order| && Shape(a, order)
    requires forall i, j :: 0 <= i < |order| && 0 <= j < |order| && i != j ==> order[i] != order[j]
    requires l < |a[order[p]].next|
    requires PathEntry(Heights(a, order), p, pa, l)
    requires LinkedAt(a, order, l)
    ensures var pre := NodeAt(order, pa);
      l < |a[pre].next| && a[pre].next[l] == order[p] &&
      Shape(a, order[..p] + order[p + 1..]) &&
      LinkedAt(SetNext(a, pre, l, a[order[p]].next[l]), order[..p] + order[p + 1..], l)
  {
    var order' := order[..p] + order[p + 1..];
    var hs := Heights(a, order);
    var t := order[p];
    var pre := NodeAt(order, pa);
    assert NextPos(hs, pa, l) == p;
    HeightsRemove(a, order, p);
    var b := SetNext(a, pre, l, a[t].next[l]);
    SetNextShape(a, order', pre, l, a[t].next[l]);
    var hs' := RemoveAt(hs, p);
    assert Heights(b, order') == hs';
    forall q' | -1 <= q' < |order'| && l < |b[NodeAt(order', q')].next|
      ensures b[NodeAt(order', q')].next[l] == NodeAt(order', NextPos(hs', q', l))
    {
      UnlinkLinkAt(a, b, order, hs, p, pa, pre, l, q');
    }
  }

  /** UnlinkLinks for the node at position q' of the shortened list. */
  lemma UnlinkLinkAt(a: seq<Element>, b: seq<Element>, order: seq<nat>, hs: seq<nat>,
                     p: nat, pa: int, pre: nat, l: nat, q': int)
    requires p < |order| && Shape(a, order) && hs == Heights(a, order)
    requires forall i, j :: 0 <= i < |order| && 0 <= j < |order| && i != j ==> order[i] != order[j]
    requires l < hs[p]
    requires PathEntry(hs, p, pa, l) && pre == NodeAt(order, pa) && l < |a[pre].next|
    requires b == SetNext(a, pre, l, a[order[p]].next[l])
    requires LinkedAt(a, order, l)
    requires -1 <= q' < |order| - 1 && l < |b[NodeAt(order[..p] + order[p + 1..], q')].next|
    ensures b[NodeAt(order[..p] + order[p + 1..], q')].next[l]
            == NodeAt(order[..p] + order[p + 1..], NextPos(RemoveAt(hs, p), q', l))
  {
    var order' := order[..p] + order[p + 1..];
    var t := order[p];
    var q := if q' < p then q' else q' + 1;
    var node := NodeAt(order', q');
    assert Unshift(q, p) == q';
    NodeAtRemove(order, p, q);
    assert pre != t by {
      if pa >= 0 { assert order[pa] == pre; }
    }
    if q == pa {
      assert a[t].next[l] == NodeAt(order, NextPos(hs, p, l)) by {
        assert NodeAt(order, p) == t;
      }
      UnlinkNextPre(hs, p, pa, l);
      NodeAtRemove(order, p, NextPos(hs, p, l));
    } else {
      assert node != pre by {
        if pa >= 0 && q >= 0 { assert order[pa] == pre; }
      }
      assert l < |a[node].next|;
      UnlinkNextOther(hs, p, pa, l, q);
      NodeAtRemove(order, p, NextPos(hs, q, l));
    }
  }

  /** A level the removed node did not reach keeps its links. */
  lemma RemoveOffLevel(a: seq<Element>, order: seq<nat>, p: nat, l: nat)
    requires p < |order| && Shape(a, order)
    requires forall i, j :: 0 <= i < |order| && 0 <= j < |order| && i != j ==> order[i] != order[j]
    requires |a[order[p]].next| <= l
    requires LinkedAt(a, order, l)
    ensures Shape(a, order[..p] + order[p + 1..])
    ensures LinkedAt(a, order[..p] + order[p + 1..], l)
  {
    var order' := order[..p] + order[p + 1..];
    var hs := Heights(a, order);
    HeightsRemove(a, order, p);
    var hs' := RemoveAt(hs, p);
    forall q' | -1 <= q' < |order'| && l < |a[NodeAt(order', q')].next|
      ensures a[NodeAt(order', q')].next[l] == NodeAt(order', NextPos(hs', q', l))
    {
      var q := if q' < p then q' else q' + 1;
      assert Unshift(q, p) == q';
      NodeAtRemove(order, p, q);
      RemoveNextPos(hs, p, q, l);
      NodeAtRemove(order, p, NextPos(hs, q, l));
    }
  }
}
