/** A skip list after Pugh, "Skip Lists: A probabilistic alternative to
    Balanced Trees", holding integers; a value inserted several times is
    kept in one node whose quantity counts the copies.

    The nodes live in the arena `nodes` and refer to each other by index;
    `order` (ghost) lists the nodes of level 0 between the sentinels, and
    the invariant Wf of module Layout ties every link to it. */
module SkipLists {
  import opened Levels
  import opened Multiplicity
  import opened Layout
  import opened Preservation
  import opened Insertion
  import opened Deletion

  /** Node x leads at level h from a value below v to one that is not. */
  ghost predicate Straddles(nodes: seq<Element>, x: nat, h: nat, v: int)
  {
    x < |nodes| && h < |nodes[x].next| && nodes[x].next[h] < |nodes| &&
    Below(nodes[x].value, v) && !Below(nodes[nodes[x].next[h]].value, v)
  }

  datatype Option<T> = None | Some(value: T)

  class SkipList {
    /** The arena; nodes[Head] and nodes[Tail] are the sentinels. */
    var nodes: seq<Element>
    /** Incremented by every insert and decremented by every delete that
        finds its value, duplicates included. */
    var numElements: int
    /** The listed nodes, in ascending order of value. */
    ghost var order: seq<nat>

    ghost predicate Valid()
      reads this
    {
      Wf(nodes, order, numElements)
    }

    /** The distinct stored values, ascending. */
    ghost function Values(): seq<int>
      reads this
      requires Valid()
    {
      Keys(nodes, order)
    }

    /** The stored values, each as many times as it is held. */
    ghost function Contents(): multiset<int>
      reads this
      requires Valid()
    {
      Bag(nodes, order)
    }

    /** Where `v` is, or would go, in Values(). */
    ghost function Position(v: int): (r: nat)
      reads this
      requires Valid()
      ensures r <= |Values()|
      ensures v in Values() <==> r < |Values()| && Values()[r] == v
    {
      RankFinds(Values(), v);
      Rank(Values(), v)
    }

    /** An empty list: the head has one level, leading to the tail. */
    constructor ()
      ensures Valid() && Values() == [] && Contents() == multiset{} && numElements == 0
      ensures nodes[Head].next == [Tail]
    {
      nodes := [Element(NegInf, 1, []), Element(PosInf, 1, [])];
      numElements := 0;
      order := [];
      new;
      nodes := nodes[Head := nodes[Head].(next := nodes[Head].next + [Tail])];
    }

    /** path[h] is the last node of level h whose value is below `v`, found
        by one walk from the top level of the head down to level 0. */
    method SearchPath(v: int) returns (path: seq<nat>, ghost pos: seq<int>)
      requires Valid()
      ensures |path| == |pos| == |nodes[Head].next|
      ensures forall h :: 0 <= h < |path| ==>
        PathEntry(Heights(nodes, order), Position(v), pos[h], h) && path[h] == NodeAt(order, pos[h])
      ensures forall h {:trigger Straddles(nodes, path[h], h, v)} :: 0 <= h < |path| ==> Straddles(nodes, path[h], h, v)
      ensures 0 < |path| && path[0] < |nodes| && 0 < |nodes[path[0]].next| && nodes[path[0]].next[0] == NodeAt(order, Position(v))
    {
      ghost var hs := Heights(nodes, order);
      ghost var p := Position(v);
      var top := |nodes[Head].next|;
      var element := Head;
      ghost var e := -1;
      path := seq(top, _ => Head);
      pos := seq(top, _ => -1);
      for h := top downto 0
        invariant |path| == |pos| == top
        invariant -1 <= e < p && element == NodeAt(order, e) && (e == -1 || h <= hs[e])
        invariant forall l :: h <= l < top ==> PathEntry(hs, p, pos[l], l) && path[l] == NodeAt(order, pos[l])
      {
        element, e := Advance(v, element, e, h);
        path := path[h := element];
        pos := pos[h := e];
      }
      forall h | 0 <= h < |path|
        ensures Straddles(nodes, path[h], h, v)
      {
        PathBelow(nodes, order, numElements, v, pos[h], h);
      }
      PathTarget(nodes, order, numElements, v, pos[0]);
    }

    /** The inner loop of SearchPath: moves along level h from `start`, at
        list position `s`, while the next node's value is below `v`. */
    method Advance(v: int, start: nat, ghost s: int, h: nat) returns (element: nat, ghost e: int)
      requires Valid()
      requires -1 <= s < Position(v) && start == NodeAt(order, s) && h < |nodes[start].next|
      ensures s <= e < Position(v) && element == NodeAt(order, e)
      ensures PathEntry(Heights(nodes, order), Position(v), e, h)
      ensures Straddles(nodes, element, h, v)
    {
      var ns := nodes;
      ghost var ord, num := order, numElements;
      ghost var hs := Heights(ns, ord);
      ghost var p := Rank(Keys(ns, ord), v);
      element, e := start, s;
      SearchStep(ns, ord, num, v, e, h);
      while Below(ns[ns[element].next[h]].value, v)
        invariant s <= e < p && element == NodeAt(ord, e) && (e == -1 || h < hs[e])
        invariant ns[element].next[h] == NodeAt(ord, NextPos(hs, e, h))
        invariant Below(ns[ns[element].next[h]].value, v) <==> NextPos(hs, e, h) < p
        decreases |ord| - e
      {
        element := ns[element].next[h];
        e := NextPos(hs, e, h);
        SearchStep(ns, ord, num, v, e, h);
      }
      PathBelow(ns, ord, num, v, e, h);
    }

    /** The node holding `v`, if there is one. */
    method Search(v: int) returns (r: Option<nat>)
      requires Valid()
      ensures r.Some? <==> v in Values()
      ensures r.Some? ==> r.value in order && nodes[r.value].value == Value(v)
    {
      var path;
      ghost var pos;
      path, pos := SearchPath(v);
      var target := nodes[path[0]].next[0];
      RankFinds(Values(), v);
      if nodes[target].value == Value(v) {
        r := Some(target);
      } else {
        r := None;
      }
    }

    /** Whether `v` is stored. */
    method Contains(v: int) returns (b: bool)
      requires Valid()
      ensures b <==> v in Contents()
    {
      var r := Search(v);
      b := r != None;
      BagOfMembers(Values(), Quantities(nodes, order), v);
    }

    /** Stores one more copy of `v`.  A value not yet stored gets a new node
        of `height` levels, spliced in after the search path; the head grows
        to `height` levels first if it is lower. */
    method Insert(v: int, height: nat)
      requires Valid() && 1 <= height
      modifies this
      ensures Valid()
      ensures Contents() == old(Contents()) + multiset{v}
      ensures numElements == old(numElements) + 1
      ensures v in old(Values()) ==>
        var t := old(order[Position(v)]);
        order == old(order) && nodes == old(SetQuantity(nodes, t, nodes[t].quantity + 1))
      ensures v !in old(Values()) ==>
        Inserted(old(nodes), old(order), nodes, order, old(Position(v)), v, height) &&
        HeadGrown(old(nodes), nodes, height)
    {
      ghost var a0, order0, num0 := nodes, order, numElements;
      ghost var p := Position(v);
      var path;
      ghost var pos;
      path, pos := SearchPath(v);
      var target := nodes[path[0]].next[0];
      TargetFound(a0, order0, num0, v, target);

      if nodes[target].value == Value(v) {
        AddCopy(v, target);
      } else {
        numElements := numElements + 1;
        InsertNode(v, height, path, pos);
      }
    }

    /** The part of Insert for a value already stored at node `t`: one more
        copy, no change to any link. */
    method AddCopy(v: int, t: nat)
      requires Valid() && v in Values() && t == order[Position(v)]
      modifies this
      ensures Valid()
      ensures Contents() == old(Contents()) + multiset{v}
      ensures numElements == old(numElements) + 1
      ensures order == old(order) && nodes == old(SetQuantity(nodes, t, nodes[t].quantity + 1))
    {
      ghost var a0, order0, num0 := nodes, order, numElements;
      var ns := SetQuantity(nodes, t, nodes[t].quantity + 1);
      nodes, numElements := ns, numElements + 1;
      BumpValue(a0, order0, num0, v, t, nodes, numElements);
    }

    /** The part of Insert that adds a node: grows the head to `height`
        levels if it is lower, extending the search path by the head, then
        splices the new node in after the path on each of its levels. */
    method InsertNode(v: int, height: nat, path0: seq<nat>, ghost pos0: seq<int>)
      requires Wf(nodes, order, numElements - 1) && 1 <= height && v !in Keys(nodes, order)
      requires |path0| == |pos0| == |nodes[Head].next|
      requires forall l :: 0 <= l < |path0| ==>
        PathEntry(Heights(nodes, order), Rank(Keys(nodes, order), v), pos0[l], l) && path0[l] == NodeAt(order, pos0[l])
      modifies this
      ensures Wf(nodes, order, numElements) && numElements == old(numElements)
      ensures Bag(nodes, order) == old(Bag(nodes, order)) + multiset{v}
      ensures Inserted(old(nodes), old(order), nodes, order, old(Rank(Keys(nodes, order), v)), v, height)
      ensures HeadGrown(old(nodes), nodes, height)
    {
      ghost var a0, order0, num0 := nodes, order, numElements - 1;
      ghost var p := Rank(Keys(nodes, order), v);
      var n := |nodes|;
      var newElement := NewElement(v, height);
      PrepareAppend(a0, v, height);
      nodes := nodes + [newElement];
      var path;
      ghost var pos;
      path, pos := GrowHead(v, height, path0, pos0, a0, order0, num0, p);

      ghost var order' := order0[..p] + [n] + order0[p..];
      ghost var mid := nodes;
      StartSplice(a0, order0, num0, v, height, mid, p, order');
      SpliceNode(n, height, path, pos, mid, order', p);
      order := order';
      InsertDone(a0, order0, num0, v, height, p, mid, nodes, order);
    }

    /** The first loop of InsertNode: while the head has fewer than
        `height` levels, adds a level leading to the tail and extends the
        search path by the head. */
    method GrowHead(v: int, height: nat, path0: seq<nat>, ghost pos0: seq<int>,
                    ghost a0: seq<Element>, ghost order0: seq<nat>, ghost num0: int, ghost p: nat)
        returns (path: seq<nat>, ghost pos: seq<int>)
      requires Wf(a0, order0, num0) && p == Rank(Keys(a0, order0), v)
      requires Prepared(a0, v, height, nodes) && order == order0
      requires |path0| == |pos0| == |nodes[Head].next|
      requires forall l :: 0 <= l < |path0| ==>
        PathEntry(Heights(a0, order0), p, pos0[l], l) && path0[l] == NodeAt(order0, pos0[l])
      modifies this
      ensures Prepared(a0, v, height, nodes) && order == old(order) && numElements == old(numElements)
      ensures height <= |path| == |pos| == |nodes[Head].next|
      ensures forall l :: 0 <= l < |path| ==>
        PathEntry(Heights(a0, order0), p, pos[l], l) && path[l] == NodeAt(order0, pos[l])
    {
      path, pos := path0, pos0;
      while |path| < height
        invariant Prepared(a0, v, height, nodes) && order == old(order) && numElements == old(numElements)
        invariant |path| == |pos| == |nodes[Head].next|
        invariant forall l :: 0 <= l < |path| ==>
          PathEntry(Heights(a0, order0), p, pos[l], l) && path[l] == NodeAt(order0, pos[l])
        decreases height - |path|
      {
        PrepareGrow(a0, v, height, nodes);
        TopEntry(a0, order0, num0, v, |path|);
        nodes := nodes[Head := nodes[Head].(next := nodes[Head].next + [Tail])];
        path := path + [Head];
        pos := pos + [-1];
      }
    }

    /** The second loop of InsertNode: links the new node `n`, of `height`
        levels, in after path[h] on each level h below its height; `p` is
        its position in the list and `order'` the list with it. */
    method SpliceNode(n: nat, height: nat, path: seq<nat>, ghost pos: seq<int>,
                      ghost mid: seq<Element>, ghost order': seq<nat>, ghost p: nat)
      requires nodes == mid && Splicing(mid, order, order', n, mid, 0) && Increasing(Keys(mid, order))
      requires p <= |order| && order' == order[..p] + [n] + order[p..]
      requires 2 <= n && mid[n].value.Value? && 1 <= mid[n].quantity
      requires |mid[n].next| == height <= |mid[Head].next| <= |path| == |pos|
      requires forall l :: 0 <= l < |path| ==>
        PathEntry(Heights(mid, order), p, pos[l], l) && path[l] == NodeAt(order, pos[l])
      modifies this
      ensures Splicing(mid, order, order', n, nodes, height)
      ensures order == old(order) && numElements == old(numElements)
    {
      for h := 0 to height
        invariant Splicing(mid, order, order', n, nodes, h)
        invariant order == old(order) && numElements == old(numElements)
      {
        var pre := path[h];
        SpliceStep(mid, order, order', p, n, nodes, h, pos[h]);
        nodes := SetNext(nodes, n, h, nodes[pre].next[h]);
        nodes := SetNext(nodes, pre, h, n);
      }
    }

    /** Removes one copy of `v`, if it is stored.  The last copy takes its
        node out of every level; the first level at which the head then
        leads straight to the tail ends the unlinking and cuts the head
        down to that many levels (at least one). */
    method Delete(v: int)
      requires Valid()
      modifies this
      ensures Valid()
      ensures Contents() == old(Contents()) - multiset{v}
      ensures numElements == old(numElements) - if v in old(Contents()) then 1 else 0
      ensures v !in old(Values()) ==> nodes == old(nodes) && order == old(order)
      ensures v in old(Values()) && old(nodes[order[Position(v)]].quantity) > 1 ==>
        var t := old(order[Position(v)]);
        order == old(order) && nodes == old(SetQuantity(nodes, t, nodes[t].quantity - 1))
      ensures v in old(Values()) && old(nodes[order[Position(v)]].quantity) == 1 ==>
        Removed(old(nodes), old(order), nodes, order, old(Position(v))) && v !in Contents()
    {
      var path;
      ghost var pos;
      path, pos := SearchPath(v);
      var target := nodes[path[0]].next[0];
      TargetFound(nodes, order, numElements, v, target);

      if nodes[target].value != Value(v) {
        NoneFewer(Contents(), v);
        return;
      }
      RemoveCopy(v, target, path, pos);
    }

    /** The part of Delete after the value was found at node `t`: one copy
        fewer, and the node taken out when it was the last. */
    method RemoveCopy(v: int, t: nat, path: seq<nat>, ghost pos: seq<int>)
      requires Valid() && v in Values() && t == order[Position(v)]
      requires |nodes[t].next| <= |path| == |pos|
      requires forall l :: 0 <= l < |path| ==>
        PathEntry(Heights(nodes, order), Position(v), pos[l], l) && path[l] == NodeAt(order, pos[l])
      modifies this
      ensures Valid()
      ensures Contents() == old(Contents()) - multiset{v}
      ensures numElements == old(numElements) - 1
      ensures old(nodes[t].quantity) > 1 ==>
        order == old(order) && nodes == old(SetQuantity(nodes, t, nodes[t].quantity - 1))
      ensures old(nodes[t].quantity) == 1 ==>
        Removed(old(nodes), old(order), nodes, order, old(Position(v))) && v !in Contents()
    {
      TargetFound(nodes, order, numElements, v, t);
      if nodes[t].quantity > 1 {
        DropCopy(v, t);
      } else {
        RemoveNode(v, t, path, pos);
      }
    }

    /** The part of Delete for a value stored more than once at node `t`:
        one copy fewer, no change to any link. */
    method DropCopy(v: int, t: nat)
      requires Valid() && v in Values() && t == order[Position(v)] && 2 <= nodes[t].quantity
      modifies this
      ensures Valid()
      ensures Contents() == old(Contents()) - multiset{v}
      ensures numElements == old(numElements) - 1
      ensures var t := old(order[Position(v)]);
        order == old(order) && nodes == old(SetQuantity(nodes, t, nodes[t].quantity - 1))
    {
      ghost var a0, order0, num0 := nodes, order, numElements;
      var ns := SetQuantity(nodes, t, nodes[t].quantity - 1);
      nodes, numElements := ns, numElements - 1;
      DropValue(a0, order0, num0, v, t, nodes, numElements);
    }

    /** The last copy of `v`, at node `t` and list position p, goes: the
        node is unlinked from its levels, as far as the head shrinking
        allows, and leaves the list. */
    method RemoveNode(v: int, t: nat, path: seq<nat>, ghost pos: seq<int>)
      requires Valid() && v in Values() && t == order[Position(v)] && nodes[t].quantity == 1
      requires |nodes[t].next| <= |path| == |pos|
      requires forall l :: 0 <= l < |path| ==>
        PathEntry(Heights(nodes, order), Position(v), pos[l], l) && path[l] == NodeAt(order, pos[l])
      modifies this
      ensures Valid()
      ensures Contents() == old(Contents()) - multiset{v} && v !in Contents()
      ensures numElements == old(numElements) - 1
      ensures Removed(old(nodes), old(order), nodes, order, old(Position(v)))
    {
      ghost var a0, order0, num0 := nodes, order, numElements;
      ghost var p := Position(v);
      ghost var order' := order0[..p] + order0[p + 1..];
      StartUnlink(a0, order0, num0, p, order');
      UnlinkNode(t, path, pos, a0, order', p);
      order, numElements := order', numElements - 1;
      RemoveDone(a0, order0, num0, v, p, order', nodes);
    }

    /** The loop of Delete: takes node `t`, at list position p, out of each
        of its levels behind path[h]; at the first level where the head
        then leads to the tail, it cuts the head down to max(1, h) levels
        and stops. */
    method UnlinkNode(t: nat, path: seq<nat>, ghost pos: seq<int>,
                      ghost mid: seq<Element>, ghost order': seq<nat>, ghost p: nat)
      requires nodes == mid && p < |order| && t == order[p] && order' == order[..p] + order[p + 1..]
      requires Unlinking(mid, order, order', t, mid, 0) && Increasing(Keys(mid, order))
      requires |mid[t].next| <= |path| == |pos|
      requires forall l :: 0 <= l < |path| ==>
        PathEntry(Heights(mid, order), p, pos[l], l) && path[l] == NodeAt(order, pos[l])
      modifies this
      ensures Unlinking(mid, order, order', t, nodes, |mid[t].next|) || Shrunk(mid, order', nodes)
      ensures order == old(order) && numElements == old(numElements)
    {
      for h := 0 to |nodes[t].next|
        invariant Unlinking(mid, order, order', t, nodes, h)
        invariant order == old(order) && numElements == old(numElements)
      {
        var pre := path[h];
        UnlinkStep(mid, order, order', p, nodes, h, pos[h]);
        nodes := SetNext(nodes, pre, h, nodes[t].next[h]);
        if pre == Head && nodes[pre].next[h] == Tail {
          nodes := nodes[Head := nodes[Head].(next := nodes[Head].next[..Max(1, h)])];
          break;
        }
      }
    }

    /** The nodes between the sentinels, in the order a walk along level 0
        meets them, which is ascending order of value. */
    method Elements() returns (xs: seq<nat>)
      requires Valid()
      ensures xs == order
      ensures forall i :: 0 <= i < |xs| ==> xs[i] < |nodes| && nodes[xs[i]].value == Value(Values()[i])
      ensures forall i, j :: 0 <= i < j < |xs| ==> Less(nodes[xs[i]].value, nodes[xs[j]].value)
    {
      var ns := nodes;
      ghost var ord, num := order, numElements;
      BottomStep(ns, ord, num, -1);
      var element := ns[Head].next[0];
      xs := [];
      BottomStep(ns, ord, num, 0);
      while |ns[element].next| > 0
        invariant |xs| <= |ord| && xs == ord[..|xs|] && element == NodeAt(ord, |xs|)
        invariant element < |ns| && (0 < |ns[element].next| <==> |xs| < |ord|)
        decreases |ord| - |xs|
      {
        BottomStep(ns, ord, num, |xs|);
        BottomStep(ns, ord, num, |xs| + 1);
        xs := xs + [element];
        element := ns[element].next[0];
      }
    }

    method Len() returns (r: int)
      requires Valid()
      ensures r == |Contents()| == Sum(Quantities(nodes, order))
    {
      r := numElements;
      BagOfSize(Values(), Quantities(nodes, order));
    }
  }
}
