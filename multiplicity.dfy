/** Duplicate accounting.  Each distinct value is stored once, with a
    quantity; the multiset a list of (value, quantity) entries stands for
    holds every value as many times as its quantity says. */
module Multiplicity {

  /** `n` copies of `v`. */
  function Copies(v: int, n: nat): (m: multiset<int>)
    ensures m[v] == n && |m| == n
    ensures forall w :: w != v ==> m[w] == 0
  {
    multiset{}[v := n]
  }

  /** The multiset of the entries keys[k] (quantity qs[k]). */
  function BagOf(keys: seq<int>, qs: seq<nat>): multiset<int>
    requires |keys| == |qs|
  {
    if keys == [] then multiset{} else Copies(keys[0], qs[0]) + BagOf(keys[1..], qs[1..])
  }

  /** The sum of the quantities. */
  function Sum(qs: seq<nat>): nat
  {
    if qs == [] then 0 else qs[0] + Sum(qs[1..])
  }

  lemma {:induction false} BagOfAppend(k1: seq<int>, q1: seq<nat>, k2: seq<int>, q2: seq<nat>)
    requires |k1| == |q1| && |k2| == |q2|
    ensures BagOf(k1 + k2, q1 + q2) == BagOf(k1, q1) + BagOf(k2, q2)
  {
    if k1 == [] {
      assert k1 + k2 == k2 && q1 + q2 == q2;
    } else {
      assert (k1 + k2)[1..] == k1[1..] + k2;
      assert (q1 + q2)[1..] == q1[1..] + q2;
      BagOfAppend(k1[1..], q1[1..], k2, q2);
    }
  }

  /** The entry at position p contributes its copies; the rest is the bag of
      the entries before and after it. */
  lemma BagOfSplit(keys: seq<int>, qs: seq<nat>, p: nat)
    requires |keys| == |qs| && p < |keys|
    ensures BagOf(keys, qs)
            == BagOf(keys[..p], qs[..p]) + Copies(keys[p], qs[p]) + BagOf(keys[p + 1..], qs[p + 1..])
  {
    var k1, q1 := keys[..p] + [keys[p]], qs[..p] + [qs[p]];
    assert keys == k1 + keys[p + 1..] && qs == q1 + qs[p + 1..];
    BagOfAppend(k1, q1, keys[p + 1..], qs[p + 1..]);
    BagOfAppend(keys[..p], qs[..p], [keys[p]], [qs[p]]);
    BagOfOne(keys[p], qs[p]);
  }

  /** A single entry stands for its copies. */
  lemma BagOfOne(v: int, n: nat)
    ensures BagOf([v], [n]) == Copies(v, n)
  {
    assert [v][1..] == [];
  }

  /** The size of the bag is the sum of the quantities. */
  lemma {:induction false} BagOfSize(keys: seq<int>, qs: seq<nat>)
    requires |keys| == |qs|
    ensures |BagOf(keys, qs)| == Sum(qs)
  {
    if keys != [] {
      BagOfSize(keys[1..], qs[1..]);
    }
  }

  /** A value no entry carries does not occur in the bag. */
  lemma {:induction false} BagOfAbsent(keys: seq<int>, qs: seq<nat>, v: int)
    requires |keys| == |qs|
    requires forall k :: 0 <= k < |keys| ==> keys[k] != v
    ensures BagOf(keys, qs)[v] == 0
  {
    if keys != [] {
      BagOfAbsent(keys[1..], qs[1..], v);
    }
  }

  /** With distinct keys, a value occurs in the bag exactly as often as the
      quantity of its entry says. */
  lemma BagOfAt(keys: seq<int>, qs: seq<nat>, p: nat)
    requires |keys| == |qs| && p < |keys|
    requires forall k :: 0 <= k < |keys| && k != p ==> keys[k] != keys[p]
    ensures BagOf(keys, qs)[keys[p]] == qs[p]
  {
    BagOfSplit(keys, qs, p);
    BagOfAbsent(keys[..p], qs[..p], keys[p]);
    BagOfAbsent(keys[p + 1..], qs[p + 1..], keys[p]);
  }

  /** With positive quantities, the values in the bag are exactly the keys. */
  lemma {:induction false} BagOfMembers(keys: seq<int>, qs: seq<nat>, v: int)
    requires |keys| == |qs|
    requires forall k :: 0 <= k < |qs| ==> 1 <= qs[k]
    ensures v in BagOf(keys, qs) <==> v in keys
  {
    if keys != [] {
      BagOfMembers(keys[1..], qs[1..], v);
      assert v in keys <==> v == keys[0] || v in keys[1..];
    }
  }

  /** Placing v at position p keeps a strictly increasing sequence
      increasing when v lies strictly between its neighbours. */
  lemma IncreasingInsert(keys: seq<int>, p: nat, v: int)
    requires p <= |keys|
    requires forall i, j :: 0 <= i < j < |keys| ==> keys[i] < keys[j]
    requires forall i :: 0 <= i < p ==> keys[i] < v
    requires forall i :: p <= i < |keys| ==> v < keys[i]
    ensures var r := keys[..p] + [v] + keys[p..];
      forall i, j :: 0 <= i < j < |r| ==> r[i] < r[j]
  {
    var r := keys[..p] + [v] + keys[p..];
    assert forall k :: 0 <= k < |r| ==> r[k] == if k < p then keys[k] else if k == p then v else keys[k - 1];
  }

  /** Leaving out one entry keeps a strictly increasing sequence increasing. */
  lemma IncreasingRemove(keys: seq<int>, p: nat)
    requires p < |keys|
    requires forall i, j :: 0 <= i < j < |keys| ==> keys[i] < keys[j]
    ensures var r := keys[..p] + keys[p + 1..];
      forall i, j :: 0 <= i < j < |r| ==> r[i] < r[j]
  {
    var r := keys[..p] + keys[p + 1..];
    assert forall k :: 0 <= k < |r| ==> r[k] == keys[if k < p then k else k + 1];
  }

  /** A new entry of quantity one adds one copy of its value. */
  lemma BagOfInsert(keys: seq<int>, qs: seq<nat>, p: nat, v: int)
    requires |keys| == |qs| && p <= |keys|
    ensures BagOf(keys[..p] + [v] + keys[p..], qs[..p] + [1] + qs[p..]) == BagOf(keys, qs) + multiset{v}
  {
    var k1, q1, k2, q2 := keys[..p], qs[..p], keys[p..], qs[p..];
    assert keys == k1 + k2 && qs == q1 + q2;
    BagOfAppend(k1, q1, k2, q2);
    BagOfAppend(k1 + [v], q1 + [1], k2, q2);
    BagOfAppend(k1, q1, [v], [1]);
    assert BagOf([v], [1]) == multiset{v} by {
      assert [v][1..] == [];
    }
  }

  /** Changing the quantity of one entry by `d` changes the bag by `d` copies. */
  lemma BagOfUpdate(keys: seq<int>, qs: seq<nat>, p: nat, n: nat)
    requires |keys| == |qs| && p < |keys|
    ensures BagOf(keys, qs[p := n]) + Copies(keys[p], qs[p]) == BagOf(keys, qs) + Copies(keys[p], n)
  {
    BagOfSplit(keys, qs, p);
    BagOfSplit(keys, qs[p := n], p);
    assert qs[p := n][..p] == qs[..p] && qs[p := n][p + 1..] == qs[p + 1..];
  }

  /** Removing an entry of quantity `qs[p]` removes all its copies. */
  lemma BagOfRemove(keys: seq<int>, qs: seq<nat>, p: nat)
    requires |keys| == |qs| && p < |keys|
    ensures BagOf(keys[..p] + keys[p + 1..], qs[..p] + qs[p + 1..]) + Copies(keys[p], qs[p]) == BagOf(keys, qs)
  {
    BagOfSplit(keys, qs, p);
    BagOfAppend(keys[..p], qs[..p], keys[p + 1..], qs[p + 1..]);
  }

  /** Cancelling the copies two sums share. */
  lemma CancelCopies(b0: multiset<int>, b1: multiset<int>, v: int, n: nat)
    requires b1 + Copies(v, n) == b0 + Copies(v, n + 1)
    ensures b1 == b0 + multiset{v}
  {
    var c := Copies(v, n);
    assert Copies(v, n + 1) == c + multiset{v};
    forall w
      ensures b1[w] == (b0 + multiset{v})[w]
    {
      assert (b1 + c)[w] == (b0 + multiset{v} + c)[w];
    }
  }

  /** One more copy at entry p is one more copy of its value. */
  lemma BagOfBump(keys: seq<int>, qs: seq<nat>, p: nat)
    requires |keys| == |qs| && p < |keys|
    ensures BagOf(keys, qs[p := qs[p] + 1]) == BagOf(keys, qs) + multiset{keys[p]}
  {
    BagOfUpdate(keys, qs, p, qs[p] + 1);
    CancelCopies(BagOf(keys, qs), BagOf(keys, qs[p := qs[p] + 1]), keys[p], qs[p]);
  }

  /** One copy fewer at entry p is one copy fewer of its value. */
  lemma BagOfDrop(keys: seq<int>, qs: seq<nat>, p: nat)
    requires |keys| == |qs| && p < |keys| && 1 <= qs[p]
    ensures BagOf(keys, qs[p := qs[p] - 1]) == BagOf(keys, qs) - multiset{keys[p]}
    ensures |BagOf(keys, qs)| == |BagOf(keys, qs[p := qs[p] - 1])| + 1
  {
    BagOfUpdate(keys, qs, p, qs[p] - 1);
    CancelCopies(BagOf(keys, qs[p := qs[p] - 1]), BagOf(keys, qs), keys[p], qs[p] - 1);
    OneFewer(BagOf(keys, qs[p := qs[p] - 1]), BagOf(keys, qs), keys[p]);
  }

  /** One copy fewer, read from the other side. */
  lemma OneFewer(x: multiset<int>, y: multiset<int>, v: int)
    requires x + multiset{v} == y
    ensures x == y - multiset{v} && |y| == |x| + 1
  {
  }

  /** Taking away a value that does not occur changes nothing. */
  lemma NoneFewer(x: multiset<int>, v: int)
    requires v !in x
    ensures x - multiset{v} == x
  {
  }
}
