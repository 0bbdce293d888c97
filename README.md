# Skip list with duplicate counting

A Dafny model of the `SkipList` class in `skipList.py`. It follows Pugh,
"Skip Lists: A probabilistic alternative to Balanced Trees". Integer values
are kept in ascending order on level 0. Each element also takes part in
levels `1 .. height-1`, and a level-`l` link skips to the next element that
is tall enough for level `l`. A value inserted more than once is kept in
one element whose `quantity` counts the copies. Every operation starts
with `search_path`: one walk from the top level of the head down to
level 0 that records, per level, the last element below the query value.
`insert` splices a new element in after that path, and grows the head
first when the element is taller. `delete` unlinks the last copy of a
value and cuts the head down at the first level that became empty.

How the model is built:

- **Class `SkipLists.SkipList`.** It holds the nodes in an arena
  `nodes: seq<Element>`. A link is the index of the node it points to.
  Index `Head` is the head and `Tail` the tail. The counter `numElements`
  is the source's `num_elements`.
- **Ghost field `order`.** It lists the arena indices met on level 0
  between the sentinels.
- **Invariant `Layout.Wf`, used as `Valid()`.** It says:
  - the sentinels are in place;
  - the listed values are strictly increasing;
  - every link at every level leads where the heights say
    (`Levels.NextPos`: the next position whose height exceeds the level);
  - the top level of the head is occupied unless it is level 0;
  - the counter is the size of the multiset of stored copies.
- **Abstract views.** `Values()` is the ascending sequence of distinct
  values and `Contents()` the multiset of copies (`Multiplicity.BagOf`).
- **Operations.** Every operation is a method on the class and is proved
  against these views.
- **Intermediate states.** The states an insert or a delete passes
  through between loop iterations are predicates, in modules `Insertion`
  and `Deletion`. Module `Preservation` proves that each step keeps the
  invariant.

Modules, in dependency order:

- `Levels`: successor positions computed from heights, and how they move
  when a position is inserted or removed.
- `Multiplicity`: the multiset of (value, quantity) entries.
- `Layout`: the node layout and invariant, and consequences of the
  invariant.
- `Preservation`: lemmas that one change keeps the invariant.
- `Insertion`, `Deletion`: the loop states of insert and delete.
- `SkipLists`: the class.

## Model

| member | source | states |
|---|---|---|
| Insertion.NewElement | skipList.py:19-26 | a new element holds its value, quantity one, and one link per level of its height |
| SkipLists.SkipList.constructor | skipList.py:29-36 | the new list is valid and holds nothing; the head has exactly one level, and it leads to the tail |
| SkipLists.SkipList.SearchPath | skipList.py:49-60 | the path has one entry per level of the head; on level h its entry is below `v` and the entry's level-h link leads to a node that is not; level 0 of path[0] leads to the node where `v` is or would go |
| SkipLists.SkipList.Advance | skipList.py:57-58 | the walk along level h stops at a node below `v` whose level-h link leads to a node that is not below `v`; it never stops before where it started, and the stop is a valid search-path entry |
| SkipLists.SkipList.Search | skipList.py:62-69 | a node is returned exactly when `v` is stored, and that node is a listed node holding `v` |
| SkipLists.SkipList.Contains | skipList.py:71-75 | true exactly when `v` has at least one copy in the list |
| SkipLists.SkipList.Insert | skipList.py:77-98 | one more copy of `v` is stored and the counter goes up by one. A stored `v` only gets its node's quantity raised, with every other node and link unchanged. A new `v` gets a new node at its sorted position: every other entry keeps its value, quantity and height, the head grows to `max(old height, height)` levels, and each new top level leads from the head to the new node and on to the tail |
| SkipLists.SkipList.AddCopy | skipList.py:83-87 | a duplicate raises its node's quantity by one and the counter by one; nothing else changes and the list stays valid |
| SkipLists.SkipList.InsertNode | skipList.py:89-98 | a new value's node is placed at the value's rank. The list stays valid and gains exactly one copy of `v`. The head growth is as described for Insert |
| SkipLists.SkipList.GrowHead | skipList.py:92-94 | the head grows to at least `height` levels, each added level leading to the tail; the search path is extended by the head and stays a valid path |
| SkipLists.SkipList.SpliceNode | skipList.py:96-98 | after one splice per level below `height`, every such level links the list that includes the new node; the levels above still link the old list |
| Insertion.PrepareGrow | skipList.py:92-94 | adding a level leading to the tail keeps the arena a prepared copy of the old one |
| Insertion.TopEntry | skipList.py:92-94 | on a level the head did not reach, the head is a valid search-path entry |
| Insertion.PreparedList | skipList.py:89-94 | appending the unlinked node and growing the head keeps every level linked and every entry unchanged |
| Insertion.StartSplice | skipList.py:96-98 | before the first splice, the arena is in the splice-loop state with no level moved yet |
| Insertion.SpliceStep | skipList.py:96-98 | splicing at level h after the path entry moves level h over to the enlarged list and changes nothing else |
| Insertion.InsertDone | skipList.py:96-98 | once every level below the new node's height is spliced, the enlarged list is valid, holds one more `v`, keeps all other entries, and the head grew as Insert states |
| Preservation.InsertFinish | skipList.py:96-98 | a node linked at all its levels, at the rank of its new value, gives a valid list with one more copy |
| Preservation.InsertEntries | skipList.py:96-98 | placing a value at its rank keeps the values strictly increasing and adds one copy to the multiset |
| Preservation.InsertTop | skipList.py:92-98 | the head's top level remains occupied after the insert |
| Preservation.NewTopLevels | skipList.py:92-98 | on every level above all old heights the head leads to the new node, which leads to the tail |
| SkipLists.SkipList.Delete | skipList.py:100-120 | one copy of `v` fewer, if there was one. The counter drops by one exactly when `v` was stored. An absent `v` changes nothing. A duplicate only lowers its node's quantity. A last copy takes the node out of the list, keeps every other entry with its value, quantity and height, and leaves `v` absent |
| SkipLists.SkipList.RemoveCopy | skipList.py:110-120 | for a stored `v`: the counter drops by one, and either the quantity drops or the node is removed, depending on its quantity |
| SkipLists.SkipList.DropCopy | skipList.py:110-114 | with two or more copies, the quantity and the counter drop by one and nothing else changes |
| SkipLists.SkipList.RemoveNode | skipList.py:116-120 | with one copy, the node leaves the list, every other entry stays with the same value, quantity and height, and the list is valid |
| SkipLists.SkipList.UnlinkNode | skipList.py:116-120 | the loop ends either with every level of the node unlinked or with the head cut down at the first empty level; both leave a state from which the list without the node is valid |
| Deletion.StartUnlink | skipList.py:116 | before the first unlink, the arena is in the unlink-loop state with no level moved yet |
| Deletion.UnlinkLevel | skipList.py:117 | the path entry at level h links to the node being removed, and re-pointing it past that node moves level h over to the shorter list |
| Deletion.UnlinkStep | skipList.py:116-120 | one iteration of the unlink loop: either the level emptied and the cut head gives a valid shorter list, or the loop state advances one level |
| Deletion.RemoveDone | skipList.py:116-120 | either way out of the loop, the shorter list is valid, its counter is one less, and `v` is gone from its multiset |
| Preservation.LevelOccupied | skipList.py:118 | if the head does not lead straight to the tail on level h after the unlink, level h is not empty |
| Preservation.ShrinkFinish | skipList.py:118-120 | cutting the head to `max(1, h)` levels at the first empty level h keeps every level linked and the top level occupied |
| Preservation.RemoveFinish | skipList.py:116-117 | with every level of the node unlinked, the shorter list is linked and its top level occupied |
| Preservation.RemoveEntries | skipList.py:116-117 | taking an entry of quantity one out keeps the values strictly increasing and removes exactly one copy |
| Preservation.TargetFound | skipList.py:68-69 | the node after path[0] on level 0 holds `v` exactly when `v` is stored, and then its quantity is the number of copies of `v` |
| Preservation.BumpValue | skipList.py:85-87 | raising a stored value's quantity keeps the list valid, with one more copy and the counter one higher |
| Preservation.DropValue | skipList.py:112-114 | lowering a quantity of two or more keeps the list valid, with one copy fewer and the counter one lower |
| Preservation.BumpQuantity | skipList.py:86 | raising one entry's quantity keeps the invariant and adds one copy of that entry's value |
| Preservation.DropQuantity | skipList.py:113 | lowering one entry's quantity from two or more keeps the invariant and removes one copy of its value |
| Preservation.PathBelow | skipList.py:57-59 | a search-path entry is below `v`, and its link on that level leads to a node that is not |
| Preservation.PathTarget | skipList.py:67-68 | level 0 of the bottom path entry leads to the node at `v`'s rank |
| Preservation.SearchStep | skipList.py:57-58 | following a link moves to the node at the successor position, which is below `v` exactly when it is before `v`'s rank |
| Preservation.BottomStep | skipList.py:126-129 | a listed node's level-0 link leads to the next listed node; only the tail has no links |
| SkipLists.SkipList.Elements | skipList.py:122-129 | the walk along level 0 yields exactly the listed nodes, and their values are strictly increasing |
| SkipLists.SkipList.Len | skipList.py:131-136 | the counter equals the number of stored copies, which is the sum of the quantities |
| Multiplicity.BagOfSize | skipList.py:131-136 | the number of copies is the sum of the quantities |
| Multiplicity.BagOfMembers | skipList.py:71-75 | with positive quantities, a value is in the multiset exactly when it is a stored value |
| Multiplicity.BagOfAt | skipList.py:85-86 | with distinct values, a value occurs in the multiset as often as its entry's quantity says |
| Multiplicity.BagOfInsert | skipList.py:90 | a new entry of quantity one adds exactly one copy |
| Multiplicity.BagOfRemove | skipList.py:116-117 | dropping an entry removes exactly its copies |
| Multiplicity.IncreasingInsert | skipList.py:96-98 | a value placed between its neighbours keeps the values strictly increasing |
| Multiplicity.IncreasingRemove | skipList.py:116-117 | leaving out one entry keeps the values strictly increasing |
| Layout.RankFinds | skipList.py:67-69 | a value is stored exactly when it is found at its rank |
| Layout.LinksIncrease | skipList.py:56-59 | every link on every level leads to a strictly larger value, at a node that itself takes part in that level |
| Layout.UpperLevelsOccupied | skipList.py:118-120 | no level above level 0 is empty: the head never leads straight to the tail there |
| Layout.HeadTallest | skipList.py:92-94 | the head is at least as tall as every element |
| Layout.PathBottom | skipList.py:67-68 | the level-0 path entry is the position just before `v`'s rank |
| Layout.EmptyList | skipList.py:29-36 | a valid list with no elements has exactly one level, leading from the head to the tail, and counts nothing |
| Layout.OrderDistinct | skipList.py:85 | strictly increasing values give distinct listed nodes, so each value has one node |
| Levels.NextPosMonotone | skipList.py:56-59 | a higher level's successor is never closer than a lower level's |
| Levels.NextPosSkip | skipList.py:57-58 | skipping over positions absent from a level keeps that level's successor |
| Levels.InsertNextPosOld | skipList.py:96-98 | after an insertion, only links that jumped over the new position on one of its levels change target, to the new position |
| Levels.RemoveNextPos | skipList.py:117 | after a removal, links to the removed position take over its successor; the others keep theirs |
| Levels.SpliceNextNew | skipList.py:97 | the new node's link takes over the path entry's old target |
| Levels.SpliceNextPre | skipList.py:98 | the path entry's link now leads to the new node |
| Levels.SpliceNextOther | skipList.py:96-98 | every other node on the level keeps its successor |
| Levels.UnlinkNextPre | skipList.py:117 | the path entry takes over the removed node's successor |
| Levels.UnlinkNextOther | skipList.py:116-117 | every other node on the level keeps its successor |

## Left out

- `random_height` (skipList.py:38-47) draws a geometric height from a random
  source. `Insert` takes the height as a parameter instead, with the same
  bound the generator guarantees (`1 <= height`). The value is used only on
  the new-value path, where the source draws it.
- Sentinel values: the source uses floats `-inf` and `inf`
  (skipList.py:33-34). The model has a `Bound` datatype (`NegInf`,
  `Value(v)`, `PosInf`), and stored values are integers. Float comparison
  and mixing value types are not modelled.
- Object identity becomes arena indices. An unlinked node stays in the
  arena, unreachable. Search returns the node's index, wrapped in an
  `Option`, instead of the node object or `None`.
- `Element.next` starts as `[None] * height` (skipList.py:26). The model
  starts every slot at `Tail`. Each slot is overwritten by the splice
  (skipList.py:96-98) before anything reads it.
- `__iter__` is a generator (skipList.py:122-129). `Elements` returns the
  whole sequence of nodes it would yield.
- `_repr_level` and `__repr__` (skipList.py:138-153) only render text.
- The demo at skipList.py:156-171 is left out.
- Locking and concurrent use, discussed in the module docstring, are not
  modelled. The model is single-threaded.
- `Insert` and `Delete` are split into helper methods along the source's
  branches: `AddCopy`, `InsertNode` with its two loops `GrowHead` and
  `SpliceNode`, and `RemoveCopy`, `DropCopy` and `RemoveNode` with its
  loop `UnlinkNode`. Each helper's contract states its part of the
  operation.
- Len: the docstring at skipList.py:132-134 says the number of unique
  elements. The code returns `num_elements`, which `insert` raises for every
  copy (line 83) and `delete` lowers for every copy it removes (line 110).
  The model follows the code, so `Len` returns the number of copies. The
  same line 110 also lowers the counter when only a duplicate's quantity
  drops.
- Contains on an empty list is false. There is no separate lemma for it,
  because a lemma cannot call a method. It follows from the constructor's
  `Contents() == multiset{}` and the contract of `Contains`.
