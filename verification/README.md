# RakNet's containers, verified

A Dafny model of the data structures in the `Include` directory of a game built on RakNet, with proofs that they do what
they are for. Each module follows one header; the B+ tree is spread over several.

- `BPlusPage` ... `BPlusTree`: the B+ tree. `BPlusPage` holds the operations on one or two pages, stated on the run of keys
  and data or children a page holds. `BPlusShape` holds the tree a set of pages stands for and its invariant: all leaves at
  one depth, every page but the root at least half full, keys in order, and each separator the smallest key of the subtree
  on its right, at every level. `BPlusHeap` ties that tree to the pages and the chain of leaves. `BPlusInsert`, `BPlusGrow`
  and `BPlusDescend` are insertion by rotation, by splitting and from node to node; `BPlusShrink` and `BPlusDelete` are
  underflow and deletion; `BPlusTree` is the class.
- `Heap`, `ShortestPaths`, `WeightedGraph`, `SpanningTree`: the binary heap, the mathematics of shortest paths, the matrix
  from which paths are read back without stored predecessors, and the tree those paths form.
- `MemoryPool`: pages on two circular lists, each with a stack of free blocks.
- `Queue`, `ThreadsafeAllocatingQueue`: the circular buffer, and the same queue under a mutex as a machine of thread steps.
- `SearchTree`, `AvlTree`: binary search tree shapes and their rotations, and insertion with pointers.
- `LinkedList`: the circular doubly linked list and its merge sort.
- `Multilist`: quicksort, binary search in either order, and the splitting of two lists.
- `Bits`, `BitStream`: numbers as bytes and bits, and typed reads and writes.
- `RangeList`: sets kept as ranges (with the ordered list's binary search), and their wire form.
- `Hash`, `SmartPtr`: the chained hash table and reference counting.
- `Sequences`: splices on sequences, and the shifting loops on fixed-size buffers.

Classes keep a ghost picture of what they stand for (`shape`, `nodes`, `chains`, `held`) beside the fields the C++ has, and
`Valid()` ties the two together. Where a call does not do what its documentation or its name promises, the model follows
the code, the exact condition is stated, and the named lemmas give examples:

- B+ tree: inserting a key that is present is refused, except that a key in a full leaf, other than the separator before it,
  is put in again when the leaf before or after it under the same node has room (`BottomRule`, `PutInTwice`).
- The "move the head element" branch (DS_BPlusTree.h:752-764) and the walk that replaces a key in the ancestors (797) are
  never effective when separators are exact; the proofs of rotation and descent rely on that. The tree's own check
  (1012-1030) looks at separators only above the leaves; the invariant here is stronger.
- `ShiftNodeLeft` (DS_BPlusTree.h:506-507) reads one slot past the live data of a full leaf and drops the value; the model
  stops one slot earlier.
- Graph of two nodes: a path is handed back whether they are joined or not, and whatever the weight; it is the shortest path
  below the given infinity exactly when they are joined by a weight below it (`TwoNodes`, `TwoNodesExamples`), and the
  spanning tree follows (`LoneTree`). From a node to itself the path names the node twice, which no path does (`SelfNoPath`).
- `PopInaccurate` tests for emptiness without the mutex, so its null result promises nothing (`InaccurateNull`).
- `CircularLinkedList::Concatenate` on an empty list appends the other list twice; merge sort never meets that case.
- `RangeList::Insert` puts a number already covered in a second time when it lies inside a range that is not the last, when
  the last range ends at the largest number, and at zero (`Repeats`, `RepeatExample`); it leaves a number next to a range it
  could have lengthened when another range follows (`Splits`). The branch that would join to the right (DS_RangeList.h:206-217)
  never runs.

## Model

| member | source | states |
|---|---|---|
| `BPlusPage.GetIndexOf` | Include/DS_BPlusTree.h:913-944 | Binary search in one page: reports a slot exactly when the key is live there; otherwise the one slot where it keeps the order. |
| `BPlusPage.DeleteFromPageAtIndex` | Include/DS_BPlusTree.h:161-177 | The page holds its old run of keys, and data or children, with exactly one key taken out. |
| `BPlusPage.InsertIntoNode` | Include/DS_BPlusTree.h:517-654 | With room the page holds its old content with the key put in; a full page is cut in two, and the halves together are the old content with the key put in; an index page reports the key to push up. |
| `BPlusPage.ShiftNodeRight` | Include/DS_BPlusTree.h:480-497 | Every live key, datum and child moves up one slot and the size grows by one, for a leaf and for an index page. |
| `BPlusPage.ShiftNodeLeft` | Include/DS_BPlusTree.h:499-515 | The first key leaves, with its datum or child, and everything after it moves down one slot. |
| `BPlusPage.RotateLeft` | Include/DS_BPlusTree.h:663-680 | The first entry of the right leaf becomes the last of the left one, and the separator and the reported action follow the new first key. |
| `BPlusPage.RotateRight` | Include/DS_BPlusTree.h:688-705 | The last entry of the left leaf becomes the first of the right one, and the separator follows it. |
| `BPlusPage.BorrowFromLeft` | Include/DS_BPlusTree.h:306-332 | The two siblings are the two sides of their old join, cut one key further left, with the cut key as separator. |
| `BPlusPage.BorrowFromRight` | Include/DS_BPlusTree.h:333-376 | The two siblings are the two sides of their old join, cut one key further right, with the cut key as separator. |
| `BPlusPage.Merge` | Include/DS_BPlusTree.h:396-418 | The left sibling holds the join of both, with the pulled-down separator between two index pages. |
| `BPlusPage.JoinCutLeft` | Include/DS_BPlusTree.h:306-332 | Cutting the join of two pages before the last key of the left one gives back both pages with that key moved: borrowing loses and reorders nothing. |
| `BPlusShape.RunReplace` | Include/DS_BPlusTree.h:1012-1030 | A child may be replaced, with the separator before it, whenever that separator is the smallest key of the new child and the bounds still fit: the order of the whole run survives. |
| `BPlusShape.RunInsert` | Include/DS_BPlusTree.h:797-826 | A child put in right of another, under a separator that heads it, keeps the order of the run. |
| `BPlusShape.BranchHasKey` | Include/DS_BPlusTree.h:707-719 | A key is below a node exactly when it is below the one child the search follows, whatever the shape of the tree. |
| `BPlusShape.CutT` | Include/DS_BPlusTree.h:535-654 | Both parts of a cut tree are in order and the key at the cut is the smallest of the right part, at every level. |
| `BPlusInsert.RotateLeftInsert` | Include/DS_BPlusTree.h:733-771 | Insertion by left rotation of an absent key keeps the invariant below the node and adds exactly the entry; a key already in the full leaf gets a second entry beside the first, on the same pages; the leaf before it holds one entry more, the full leaf as many as before, no other leaf changes its size; the key reported for replacement is the old separator. |
| `BPlusInsert.RotateRightInsert` | Include/DS_BPlusTree.h:772-791 | The same for the right rotation, whether the key goes into the left leaf or to the head of the right one, the leaf after it holding one entry more. |
| `BPlusInsert.RotatedLeft` | Include/DS_BPlusTree.h:733-771 | Read from left to right, two leaves after the rotation are the old entries with the new one at the place that keeps the order. |
| `BPlusGrow.InsertIntoLeaf` | Include/DS_BPlusTree.h:517-654 | A leaf that takes a key in, or splits, keeps the chain of leaves linked both ways, with the new leaf behind the old one. |
| `BPlusGrow.LeafGrow` | Include/DS_BPlusTree.h:517-654 | The one or two leaves that come back are in order, at least half full when split, and hold exactly the old entries and the new one, in the sizes `SplitSizes` writes out. |
| `BPlusGrow.IndexGrow` | Include/DS_BPlusTree.h:800-826 | A node that takes in a key and page pushed up, or splits for it, keeps the invariant, every entry and every leaf, and pushes up the smallest key of its new right half. |
| `BPlusDescend.InsertBranchDown` | Include/DS_BPlusTree.h:722-828 | Insertion below any node, by rotation, leaf split or cascaded split: the invariant, the chain of leaves and the pages not below the node are kept, the entries are the old ones and the new one, a leaf is added exactly when `BottomRule` says so, and every leaf ends with as many entries as `SizesRule` says; refused exactly when a search meets the key, and a key it overlooks gets a second entry. |
| `BPlusDescend.BottomShape` | Include/DS_BPlusTree.h:707-719 | Under the node over the leaf a search ends in there are only leaves, and the key is in the tree exactly when it is in that leaf. |
| `BPlusDescend.BottomRule` | Include/DS_BPlusTree.h:733-791 | At any height, with the leaf the search ends in at any place among any number of leaves under its node: an absent key adds a leaf exactly when that leaf is full and neither the leaf before it nor the one after it under the node has room; a present key is overlooked exactly when its leaf is full, one of the two has room, and the key is not the separator before its leaf. |
| `BPlusDescend.SizesRule` | Include/DS_BPlusTree.h:733-791 | Of all the leaves of a tree only those under the node over the leaf the search ends in change their sizes by insertion. |
| `BPlusTree.GetLeafFromKey` | Include/DS_BPlusTree.h:707-719 | A leaf of the tree that shows the key exactly when the tree has it, with the same datum. |
| `BPlusTree.InsertRoot` | Include/DS_BPlusTree.h:833-874 | Insertion at the root, growing a new root when the old one splits, keeps the whole invariant, and the leaves end with the sizes the rule below the root gives. |
| `BPlusTree.GrowRoot` | Include/DS_BPlusTree.h:845-874 | A split root gets a new root over its two halves, one level higher, with the pushed key as their separator. |
| `BPlusTree.BPlusTree.Insert` | Include/DS_BPlusTree.h:830-876 | For a tree of any height, by the leaf the search ends in and its neighbours under the same node: an absent key always succeeds, the invariant holds again, the contents are the old map with the key put in, and one leaf is added when that leaf is full and neither neighbour has room, otherwise none; a present key succeeds exactly when its leaf is full, a neighbour has room and the key is not the separator before the leaf, and then gets a second entry beside the first; every leaf holds as many entries as `SizesEnd` says; a refusal changes nothing. |
| `BPlusTree.BPlusTree.SearchEnds` | Include/DS_BPlusTree.h:682-791 | The rule for the leaf a search ends in, for a whole tree; a root that is a leaf splits exactly when it holds as many keys as the order. |
| `BPlusTree.BPlusTree.SizesEnd` | Include/DS_BPlusTree.h:682-791 | A full leaf passes one entry to the leaf before it if that one has room, otherwise to the leaf after it if that one has, otherwise splits; a leaf that is not full grows by one; no other leaf of the tree changes its size. |
| `BPlusTree.SplitSizes` | Include/DS_BPlusTree.h:532-608 | A full leaf splits into halves, the half the new key sorts into holding the new entry. |
| `BPlusTree.TwoLeavesSplit` | Include/DS_BPlusTree.h:733-791 | With two leaves, a third is added only when both are full. |
| `BPlusTree.NearlyFull` | Include/DS_BPlusTree.h:733-791 | Two leaves one key short of full always hold a key that insertion overlooks. |
| `BPlusTree.FillTwoLeaves` | Include/DS_BPlusTree.h:733-876 | Any keys, one fewer than twice the order, put into an empty tree in any order leave a key that is overlooked. |
| `BPlusTree.PutInTwice` | Include/DS_BPlusTree.h:733-906 | From an empty tree to one that holds a key twice, by insertions alone: the call succeeds and the size counts one more than there are keys. |
| `BPlusShrink.FixUnderflow` | Include/DS_BPlusTree.h:300-478 | Borrowing or merging repairs a child one key short: every child is half full again, the invariant and the chain of leaves hold, no entry is lost, and underflow is reported exactly when the node itself is now short. At every level the key comes from the child before if that has more than half, otherwise from the child after if that has, otherwise the child merges with the one after, or with the one before if it is the last; no other child changes its size. |
| `BPlusShrink.SpineRemove` | Include/DS_BPlusTree.h:418-434 | Taking a child out with the separator before it keeps the order of the run, as merging needs it. |
| `BPlusShrink.FixByMerge` | Include/DS_BPlusTree.h:378-476 | Merging frees the right-hand page, takes its separator out of the parent and unlinks a merged leaf from the chain; the freed page is never the first leaf. |
| `BPlusShrink.Unlink` | Include/DS_BPlusTree.h:453-465 | A leaf leaves the chain and its neighbours are linked to one another both ways. |
| `BPlusDelete.StepLeaf` | Include/DS_BPlusTree.h:226-251 | At a leaf the entry under the key is taken out and its datum handed back; when it was the leaf's first, the separator before the leaf, or the request to the ancestors, follows. |
| `BPlusDelete.StepIndex` | Include/DS_BPlusTree.h:252-297 | Below an index page the separator that named the deleted key is replaced by the new smallest key to its right, so separators stay exact at every level. |
| `BPlusDelete.FindDeleteRebalance` | Include/DS_BPlusTree.h:225-298 | Deletion below any node: finds the key exactly when it is there, removes exactly its entry, keeps the invariant below the node, and reports underflow exactly when the node is short; the leaves end with the sizes `SizesWithoutRule` gives. |
| `BPlusDelete.SizesWithoutRule` | Include/DS_BPlusTree.h:225-478 | Of all the leaves only those under the node over the leaf that held the key change their sizes by deletion. |
| `BPlusTree.DeleteBelowRoot` | Include/DS_BPlusTree.h:185-222 | Deletion in a tree of several pages, and the root giving way to its only child, keep the invariant; the new root is one level lower. |
| `BPlusTree.BPlusTree.Delete` | Include/DS_BPlusTree.h:185-222 | True with the old datum exactly when the key was present; the contents are the old map without the key; otherwise nothing changes; always a well-formed tree again, whose leaves hold as many entries as `SizesGone` says. |
| `BPlusTree.BPlusTree.SizesGone` | Include/DS_BPlusTree.h:225-478 | Only leaves under one node change their sizes by deletion: the leaf that held the key and, when it falls short, the one it borrows from or merges with. |
| `BPlusTree.BPlusTree.Get` | Include/DS_BPlusTree.h:145-159 | Finds a key exactly when the contents have it, and hands back its datum. |
| `BPlusTree.CountChain` | Include/DS_BPlusTree.h:896-906 | Walking the chain from the first leaf counts every entry of the tree once. |
| `BPlusTree.BPlusTree.Size` | Include/DS_BPlusTree.h:896-906 | The number of keys in the contents of a well-formed tree, and the number of entries also once a key is there twice. |
| `BPlusTree.BPlusTree.IsEmpty` | Include/DS_BPlusTree.h:908-911 | Exactly when the contents are empty. |
| `Heap.Heap.Push` | Include/DS_Heap.h:130-162 | Heap order, for a largest-first and a smallest-first heap, is kept, and the contents are the old ones and the new entry. |
| `Heap.Heap.Pop` | Include/DS_Heap.h:165-239 | The first entry leaves; what is left is in heap order and no entry of it stands above the one handed back. |
| `Heap.Heap.SiftDown` | Include/DS_Heap.h:184-236 | Swapping the first entry down towards the favoured child restores heap order and keeps the contents. |
| `Heap.Heap.PushSeries` | Include/DS_Heap.h:82-127 | The sift-up is skipped from the first entry on that fits at the end, and the heap stays in order as long as no later entry of the series stands above the one before. |
| `Heap.Heap.PushAll` | Include/DS_Heap.h:67-127 | A whole series in heap order, pushed after starting a series with no other call in between, keeps the heap in order and the contents complete. |
| `Heap.Heap.PopMany` | Include/DS_Heap.h:165-239 | Any number of pops in a row come out in order, and they and what is left are what the heap held. |
| `Heap.PopsInOrder` | Include/DS_Heap.h:165-239 | A run of pops each of which takes an entry none stands above comes out in order, whatever the contents. |
| `Heap.RootExtreme` | Include/DS_Heap.h:242-252 | In a heap no entry stands above the first one. |
| `WeightedGraph.WeightedGraph.AddNode` | Include/DS_WeightedGraph.h:138-141 | The node is added without edges, and every edge is as before. |
| `WeightedGraph.WeightedGraph.AddConnection` | Include/DS_WeightedGraph.h:181-193 | The two nodes are joined both ways with the weight, every other edge and weight is as before, and joining a node to itself does nothing. |
| `ShortestPaths.LeavesDone` | Include/DS_WeightedGraph.h:396-501 | Every path that leaves the settled nodes costs at least the cheapest node not yet settled. |
| `ShortestPaths.RelaxedAccurate` | Include/DS_WeightedGraph.h:447-491 | Settling the cheapest open node and trying its edges keeps every cost the weight of a real path and every settled cost a shortest distance. |
| `WeightedGraph.TryEdges` | Include/DS_WeightedGraph.h:452-469 | Trying the edges of the settled node, in whatever order, gives every row from the current one on exactly the relaxed costs, and keeps the open set in step. |
| `WeightedGraph.FindLowest` | Include/DS_WeightedGraph.h:476-488 | By way of the heap, a cheapest open node, or the finding that none is open. |
| `WeightedGraph.GenerateMatrix` | Include/DS_WeightedGraph.h:396-501 | Each row arises from the one before by settling a cheapest open node, also when the search ends early because nothing within reach is left. |
| `WeightedGraph.BuiltDistance` | Include/DS_WeightedGraph.h:396-501 | In the last row read the cost of every node within reach is its shortest distance, and of every other node the given infinity. |
| `WeightedGraph.RowsFall` | Include/DS_WeightedGraph.h:452-469 | No row is dearer than the one before it, in any column. |
| `WeightedGraph.SettledInOrder` | Include/DS_WeightedGraph.h:471-491 | Nodes are settled in order of distance. |
| `WeightedGraph.SettledFixed` | Include/DS_WeightedGraph.h:452-491 | A settled node's cost never changes again. |
| `WeightedGraph.ReadBack` | Include/DS_WeightedGraph.h:253-302 | The walk back over the rows ends, reads the table of settled nodes only where it was written, and gives a real path whose weight is the cost in the last row, or no path exactly when that cost is infinite. |
| `WeightedGraph.StepBack` | Include/DS_WeightedGraph.h:277-295 | Where a cost fell, the node settled just before is a neighbour whose own cost and edge make up the new cost. |
| `WeightedGraph.TrailOfPredecessor` | Include/DS_WeightedGraph.h:277-302 | The path to a node is the path to its predecessor and the node, and the predecessor's cost last fell in an earlier row: the paths form a tree. |
| `WeightedGraph.TrailShortest` | Include/DS_WeightedGraph.h:253-302 | The chain of predecessors of any node within reach is a path whose weight is its cost in the last row. |
| `WeightedGraph.WeightedGraph.Refresh` | Include/DS_WeightedGraph.h:236-240 | The matrix is made anew unless it was made for the same start, and is then left as it is. |
| `WeightedGraph.WeightedGraph.GetShortestPath` | Include/DS_WeightedGraph.h:226-302 | For three nodes or more: a real path from start to end whose weight no path undercuts, or no path exactly when every path costs at least the given infinity; for two nodes the path handed back is that answer exactly when they are joined by a weight below infinity; from a node to itself the answer names the node twice, which is no path; the matrix is made once per start. |
| `WeightedGraph.TwoNodes` | Include/DS_WeightedGraph.h:258-263 | With two nodes the path handed back is a shortest path below the given infinity exactly when they are joined by a weight below it. |
| `WeightedGraph.TwoNodesExamples` | Include/DS_WeightedGraph.h:258-263 | Two nodes not joined, and two joined by a weight of seven when infinity is five: the path handed back is not the answer. |
| `SpanningTree.AddPath` | Include/DS_WeightedGraph.h:340-349 | Joining the nodes of one path makes the collected graph the edges between nodes and their predecessors, no more and no fewer. |
| `SpanningTree.AddChildren` | Include/DS_WeightedGraph.h:365-388 | A node gets exactly one child for every node whose predecessor it is, each new to the tree. |
| `SpanningTree.BuildTree` | Include/DS_WeightedGraph.h:352-391 | The breadth-first walk ends, and no node is made twice. |
| `SpanningTree.AllInTree` | Include/DS_WeightedGraph.h:352-391 | Every node that has a predecessor is in the finished tree. |
| `SpanningTree.RootPathTrail` | Include/DS_WeightedGraph.h:330-393 | The way from the root down to a node is the node's shortest path read from the matrix. |
| `SpanningTree.GetSpanningTree` | Include/DS_WeightedGraph.h:330-393 | For three nodes or more: a tree over edges of the graph in which no node occurs twice, the way down to each node is a shortest path, every asked-for node within reach is there, and nothing is there that is not on the way to one; for fewer nodes it is that exactly when every asked-for node is joined to the start by a weight below the given infinity; the result says whether it is more than the start. |
| `SpanningTree.LoneTree` | Include/DS_WeightedGraph.h:258-263 | With fewer than three nodes the collected tree is a tree of shortest paths exactly when each asked-for node is joined to the start below the given infinity. |
| `MemoryPool.TakeBlock` | Include/DS_MemoryPool.h:113-113 | The block on top of a page's free stack is handed out; the page's blocks stay split between stack and handed out, each once. |
| `MemoryPool.PutBlock` | Include/DS_MemoryPool.h:168-168 | A block that is out goes back on its page's stack; there is always room for it. |
| `MemoryPool.InitPage` | Include/DS_MemoryPool.h:274-299 | A new page: all its blocks different, its own, and on its stack, and the page alone on its circle. |
| `MemoryPool.Unlink` | Include/DS_MemoryPool.h:205-206 | A page leaves its circle and the pages beside it are linked both ways. |
| `MemoryPool.LinkBefore` | Include/DS_MemoryPool.h:128-134 | A page joins a circle just before its head, that is, at its end. |
| `MemoryPool.MovePage` | Include/DS_MemoryPool.h:119-134 | A page leaves one circle for the end of the other, also when that was empty, and both are circles again. |
| `MemoryPool.MemoryPool.Allocate` | Include/DS_MemoryPool.h:102-152 | The block handed out was not out; it comes from the head of the pages with room, or from a fresh page when there is none; that page goes to the end of the full ones exactly when this was its last block, and the order of all others stays; at most three pages with no block out are kept; the recorded sizes and the split of every page hold again. |
| `MemoryPool.MemoryPool.Release` | Include/DS_MemoryPool.h:154-214 | Exactly the block given back stops being out. The block's page is freed exactly when no other block of it is out and at least four pages had room; otherwise the same pages remain, a full page going to the end of those with room. At most three pages with no block out are ever kept. |
| `MemoryPool.MemoryPool.FewIdle` | Include/DS_MemoryPool.h:192-211 | In every valid pool at most three pages have no block out. |
| `MemoryPool.MemoryPool.RetireHead` | Include/DS_MemoryPool.h:114-135 | A page whose last block is handed out leaves the head of the pages with room for the end of the full ones; both recorded sizes and heads follow. |
| `MemoryPool.MemoryPool.Reopen` | Include/DS_MemoryPool.h:165-191 | A full page that has a block again leaves the full pages, at whatever place it was, for the end of those with room; both recorded sizes and heads follow. |
| `MemoryPool.MemoryPool.ReleaseToFull` | Include/DS_MemoryPool.h:165-191 | The first block to come back moves its page from the full pages to the end of the pages with room. |
| `MemoryPool.MemoryPool.ReleaseToAvail` | Include/DS_MemoryPool.h:192-211 | A page with room is freed exactly when its last block comes back and four pages or more have room; otherwise the same pages remain, in the same order. |
| `MemoryPool.Room` | Include/DS_MemoryPool.h:168-211 | A block that is out leaves room on its page's stack, and a full stack means none of the page's blocks is out. |
| `MemoryPool.LastBlock` | Include/DS_MemoryPool.h:194-197 | A stack one short of full means exactly that the one block is the page's last that is out. |
| `Queue.Queue.Push` | Include/DS_Queue.h:223-268 | The element is appended, through the wrap at the end of the array and through growth; the array is never left full: it starts with sixteen slots and doubles exactly when the element would fill it. |
| `Queue.Queue.Grow` | Include/DS_Queue.h:240-266 | A full wrapped array is copied in order to the front of one twice its size. |
| `Queue.Queue.Pop` | Include/DS_Queue.h:104-118 | The first element leaves and is handed back, also across the wrap. |
| `Queue.Queue.PopTail` | Include/DS_Queue.h:121-136 | The last element leaves and is handed back, also across the wrap. |
| `Queue.Queue.PushAtHead` | Include/DS_Queue.h:158-198 | The element goes in at the given distance from the head and everything from there on moves up one; the array grows as for an append. |
| `Queue.Queue.At` | Include/DS_Queue.h:401-412 | The element at a distance from the head. |
| `Queue.Queue.RemoveAtIndex` | Include/DS_Queue.h:415-457 | Exactly the element at the position leaves and the rest keep their order; a position past the end is ignored. |
| `Queue.Queue.Compress` | Include/DS_Queue.h:343-366 | The same elements in an array of the smallest power of two that leaves a slot free. |
| `Queue.Queue.Find` | Include/DS_Queue.h:369-385 | Exactly when some element equals the one sought. |
| `Queue.Queue.Clear` | Include/DS_Queue.h:327-340 | No elements, and still an array in order. |
| `Queue.Queue.Size` | Include/DS_Queue.h:65-71 | The number of elements between head and tail. |
| `ThreadsafeAllocatingQueue.StepKeeps` | Include/DS_ThreadsafeAllocatingQueue.h:57-93 | Every step of any thread, in `Push`, `Pop` or `PopInaccurate`, keeps the invariant: one owner inside, and pushed is popped and then queued. |
| `ThreadsafeAllocatingQueue.RunSafe` | Include/DS_ThreadsafeAllocatingQueue.h:57-93 | In every interleaving, at every moment: the items returned, then the one a thread is about to return, then the queue, are the items pushed, in the order the mutex was held; a thread outside never holds the mutex. |
| `ThreadsafeAllocatingQueue.PushCall` | Include/DS_ThreadsafeAllocatingQueue.h:57-63 | In every interleaving a call to push an item puts it, in exactly one step, behind whatever is queued at that step, and records it; no other step of the call touches the queue or the records; over the whole call the thread has pushed that one item more and popped nothing. |
| `ThreadsafeAllocatingQueue.PopCall` | Include/DS_ThreadsafeAllocatingQueue.h:66-93 | In every interleaving a call that hands an item back took it, in exactly one step, from the front of the queue, and hands it back at its last step; over the whole call the thread has popped and been handed that one item more and pushed nothing. |
| `ThreadsafeAllocatingQueue.NullCallSawEmpty` | Include/DS_ThreadsafeAllocatingQueue.h:66-93 | A call to `Pop`, or to `PopInaccurate` once past its first test, that hands nothing back saw the queue empty with the mutex held. |
| `ThreadsafeAllocatingQueue.MutualExclusion` | Include/DS_ThreadsafeAllocatingQueue.h:57-93 | Two threads are never inside together. |
| `ThreadsafeAllocatingQueue.StepExtends` | Include/DS_ThreadsafeAllocatingQueue.h:57-93 | What was pushed, popped or returned is never taken back, and a step moves no other thread. |
| `ThreadsafeAllocatingQueue.NullLeavesQueue` | Include/DS_ThreadsafeAllocatingQueue.h:66-93 | In every run, from the start of a call to its null return, no step of the call touches the queue or the records, whatever other threads do in between. |
| `ThreadsafeAllocatingQueue.PopNullMeansEmpty` | Include/DS_ThreadsafeAllocatingQueue.h:81-93 | With the mutex held a pop finds nothing exactly when the queue is empty, and otherwise takes the first item. |
| `ThreadsafeAllocatingQueue.InaccurateNull` | Include/DS_ThreadsafeAllocatingQueue.h:66-78 | A run in which `PopInaccurate` returns null while the queue holds an item: its null promises nothing. |
| `ThreadsafeAllocatingQueue.NoDeadlock` | Include/DS_ThreadsafeAllocatingQueue.h:57-93 | While any call is under way some thread can take a step. |
| `AvlTree.Find` | Include/DS_BinarySearchTree.h:445-502 | The node a search ends at, its parent and which side it hangs on; or that there is none. |
| `AvlTree.HeightRecursive` | Include/DS_BinarySearchTree.h:399-416 | The height of the subtree. |
| `AvlTree.AddLeaf` | Include/DS_BinarySearchTree.h:682-761 | The new node hangs where a search for its item ends; an item already there adds nothing. |
| `AvlTree.RotateLeft` | Include/DS_BinarySearchTree.h:313-366 | The subtree is turned left in place: the same nodes in the same order, the rest of the tree untouched, the pointer from above redirected. |
| `AvlTree.RotateRight` | Include/DS_BinarySearchTree.h:249-302 | The mirror image of the left turn. |
| `AvlTree.DoubleRotateLeft` | Include/DS_BinarySearchTree.h:369-374 | The taller child's inner subtree is raised by two turns; the nodes and their order are kept. |
| `AvlTree.DoubleRotateRight` | Include/DS_BinarySearchTree.h:305-310 | The mirror image of the double left turn. |
| `AvlTree.Rebalance` | Include/DS_BinarySearchTree.h:179-205 | A node out of level by two gets the single or the double turn its taller child calls for. |
| `AvlTree.BalanceTree` | Include/DS_BinarySearchTree.h:167-213 | The walk up from the new leaf ends, and turns at most once, at the lowest node out of level; after it the whole tree is balanced. |
| `SearchTree.RebalancedLevel` | Include/DS_BinarySearchTree.h:167-213 | One single or double turn brings a subtree put out of level by an insertion back to its old height, balanced at every node. |
| `SearchTree.BalancedAbove` | Include/DS_BinarySearchTree.h:167-213 | Above a subtree that is back at its old height nothing is out of level: one turn is enough. |
| `SearchTree.ReplaceItems` | Include/DS_BinarySearchTree.h:249-374 | Replacing a subtree by one with the same items keeps the items and the order of the whole tree. |
| `AvlTree.AVLBalancedBinarySearchTree.Add` | Include/DS_BinarySearchTree.h:215-220 | Search order and balance at every node are kept, the items are the old ones and the new one, and the tree is the plain insertion put right by at most one single or double turn at the lowest node out of level; an item already there changes nothing. |
| `AvlTree.AVLBalancedBinarySearchTree.IsIn` | Include/DS_BinarySearchTree.h:764-774 | Exactly when the item is in the tree. |
| `LinkedList.LinkAfter` | Include/DS_LinkedList.h:741-766 | A node put in after another joins the circle there, linked both ways. |
| `LinkedList.Unlink` | Include/DS_LinkedList.h:800-803 | A node leaves the circle and its neighbours are linked both ways. |
| `LinkedList.CircularLinkedList.Add` | Include/DS_LinkedList.h:700-773 | The item goes in after the position, which stays where it is, through the special cases of an empty list and a list of one. |
| `LinkedList.CircularLinkedList.Del` | Include/DS_LinkedList.h:784-816 | The item at the position leaves, the position steps on, and the root follows when it was the root. |
| `LinkedList.CircularLinkedList.Concatenate` | Include/DS_LinkedList.h:992-1020 | The other list's items are appended in order and the position is left at the last item; appended to an empty list they come twice; an empty other list changes nothing. |
| `LinkedList.CircularLinkedList.Assign` | Include/DS_LinkedList.h:534-620 | The list becomes a copy, with the position at the same item; assigning a list to itself changes nothing. |
| `LinkedList.CopyList` | Include/DS_LinkedList.h:447-528 | The same items in the same order on new nodes, with the position at the same item. |
| `LinkedList.Merge` | Include/DS_LinkedList.h:1072-1113 | Of copies of two lists the smaller first item is taken until one is used up, and then the rest of the other; the result is never empty when the rest is appended. |
| `LinkedList.Mergesort` | Include/DS_LinkedList.h:1035-1069 | The halves, each scrambled by the way it is dealt out, are sorted and merged. |
| `LinkedList.CircularLinkedList.AddLast` | Include/DS_LinkedList.h:1104-1106 | Adding at the end and stepping on keeps the position at the end. |
| `LinkedList.Deal` | Include/DS_LinkedList.h:1043-1058 | Items added one by one to an empty list whose position stays at its first: after the first they stand in reverse. |
| `LinkedList.FilledContents` | Include/DS_LinkedList.h:1043-1058 | Dealing out a half scrambles its order and keeps its items. |
| `LinkedList.MergedSorted` | Include/DS_LinkedList.h:1072-1113 | Merging two sorted runs gives a sorted run. |
| `LinkedList.MergedContents` | Include/DS_LinkedList.h:1072-1113 | Merging keeps the items of both runs. |
| `LinkedList.MergesortedSorted` | Include/DS_LinkedList.h:1035-1069 | The result of the recursion is sorted and has the items it was given. |
| `LinkedList.Sort` | Include/DS_LinkedList.h:1023-1032 | The list ends as a well-formed circle, sorted, with the same items and the position at the first. |
| `Multilist.Partition` | Include/DS_Multilist.h:872-907 | The range is divided: nothing before the division comes after the first slot's value, nothing from it on comes before, and the range is only rearranged. |
| `Multilist.QSort` | Include/DS_Multilist.h:868-964 | Either sort order: the recursion ends although the pivot stays inside one part, and the range is sorted and only rearranged, the rest of the array untouched. |
| `Multilist.Multilist.Sort` | Include/DS_Multilist.h:843-857 | A list not flagged as sorted, or any list when forced, ends sorted in its order with the same items; an unforced flagged list is left as it is; the flag is then true. |
| `Multilist.Multilist.SetSortOrder` | Include/DS_Multilist.h:965-975 | A flagged list is reversed when the other order is asked for, so its flag stays true; every other list is left as it is. |
| `Multilist.Multilist.ReverseListInternal` | Include/DS_Multilist.h:1199-1209 | The items in reverse. |
| `Multilist.Multilist.GetIndexFromKeyInSortedList` | Include/DS_Multilist.h:1241-1290 | Binary search in either order: whether the key is there, and where it is or where it would keep the order. |
| `Multilist.Multilist.InsertShiftArrayRight` | Include/DS_Multilist.h:1293-1306 | The item at the index, everything from there on one slot up. |
| `Multilist.Multilist.Push` | Include/DS_Multilist.h:350-392 | One more item; an ordered list stays sorted; any other list gets it at the end and is no longer flagged as sorted, unless it is the first item. |
| `Multilist.JoinSorted` | Include/DS_Multilist.h:909-913 | Two sorted parts on either side of a value are one sorted range. |
| `Multilist.RearrangedBound` | Include/DS_Multilist.h:909-913 | Rearranging a part cannot move an item across the pivot. |
| `Multilist.DealtStep` | Include/DS_Multilist.h:1110-1128 | The comparison of two fronts of sorted lists sends each item where the multiset difference and intersection want it. |
| `Multilist.FindIntersection` | Include/DS_Multilist.h:1094-1139 | The intersection gets every item as often as both sources have it, and each of the other lists what its source has beyond that, duplicates included; both sources end sorted with their items. |
| `Bits.LowBitsRoundTrip` | Include/BitStream.h:1753-1784 | A number sent low byte first in just enough bits comes back. |
| `Bits.WholeBytesRoundTrip` | Include/BitStream.h:1084-1102 | Whole bytes come back as they were written. |
| `Bits.LittleRoundTrip` | Include/BitStream.h:1084-1102 | A number taken apart into bytes and put together again is the same number. |
| `Bits.IntType.DifferenceRoundTrip` | Include/BitStream.h:1771-1771 | A difference that wraps round in its type comes back when the minimum is added again, also between signed bounds of opposite sign. |
| `BitStream.SwappedMemory` | Include/BitStream.h:1091-1098 | Hosts of either byte order write the same bits. |
| `BitStream.BitStream.WriteWhole` | Include/BitStream.h:1084-1102 | The value goes out bit by bit from its highest binary digit to its lowest, on every host. |
| `BitStream.BitStream.WriteThree` | Include/BitStream.h:1165-1184 | A 24-bit value goes out as three whole bytes from the next byte boundary on, least significant byte first, on every host. |
| `BitStream.BitStream.WriteDelta` | Include/BitStream.h:1236-1247 | One bit when the value is unchanged, otherwise a set bit and the value. |
| `BitStream.BitStream.WriteBitsFromIntegerRange` | Include/BitStream.h:1753-1784 | The distance from the minimum in as many bits as the widest distance needs, its low byte first, or a flag and the whole value when it lies outside and that is allowed. |
| `BitStream.BitStream.Write` | Include/BitStream.h:1753-1784 | Whatever item is written stands where the stream stood, aligned if need be, and no earlier bit changes. |
| `BitStream.BitStream.AlignWriteToByteBoundary` | Include/BitStream.h:587-587 | The write position moves to the next multiple of eight; earlier bits stay. |
| `BitStream.BitStream.AlignReadToByteBoundary` | Include/BitStream.h:594-594 | The read position moves to the next multiple of eight, as the write position did. |
| `BitStream.BitStream.ReadBool` | Include/BitStream.h:1475-1489 | One bit exactly when one is left, otherwise failure without moving. |
| `BitStream.BitStream.ReadThree` | Include/BitStream.h:1524-1548 | Exactly when three whole bytes are left from the next boundary on: their number, least significant byte first, and the reader behind them; otherwise failure there. |
| `BitStream.BitStream.ReadWhole` | Include/BitStream.h:1442-1471 | Exactly when all its bits are left: the number whose binary digits stand there, whatever the host; otherwise failure without moving. |
| `BitStream.BitStream.ReadDelta` | Include/BitStream.h:1589-1597 | Without a flag failure; with a clear flag the last value; with a set flag the value written behind it, exactly when all its bits are left. |
| `BitStream.BitStream.ReadRange` | Include/BitStream.h:1887-1904 | Exactly when as many bits are left as the widest distance needs: the distance they spell, low byte first, added to the minimum round the type. |
| `BitStream.BitStream.ReadBitsFromIntegerRange` | Include/BitStream.h:1875-1904 | By its flag, the whole value or the value of the range, and exactly when it fails. |
| `BitStream.DecodePresent` | Include/BitStream.h:1475-1489 | A read where an item was written gives the item back and stops where the item ends, for every kind of item. |
| `BitStream.WriteAll` | Include/BitStream.h:1084-1102 | After any list of typed writes each item stands where the stream stood when it was written. |
| `BitStream.ReadAll` | Include/BitStream.h:1442-1471 | Reads that mirror a list of typed writes each begin at the bit where their write began, end where it ended, and give back what was written. |
| `RangeList.RangeList.Insert` | Include/DS_RangeList.h:159-218 | The numbers covered are the old ones and the new one and the ranges stay sorted, for every list and number, wrap-around included; no two ranges begin at the same number unless zero goes into a list that begins with it; a disjoint list stays disjoint exactly when the number is not one insertion repeats; a coalesced one stays coalesced exactly when it is also not one that insertion splits off; an uncovered number adds one to the sum. |
| `RangeList.InsertedAgrees` | Include/DS_RangeList.h:159-218 | The same of the step itself, for every place a search may report. |
| `RangeList.RepeatsOverlap` | Include/DS_RangeList.h:159-218 | A covered number inside a range that is not the last, inside a last range that ends at the largest number, or zero, is put in a second time. |
| `RangeList.NoRepeatDisjoint` | Include/DS_RangeList.h:159-218 | Every other number leaves a disjoint list disjoint. |
| `RangeList.InsertedStrict` | Include/DS_RangeList.h:159-218 | Ranges that begin at different numbers still do, exactly unless zero is put into a list that begins with it. |
| `RangeList.RepeatExample` | Include/DS_RangeList.h:159-218 | A coalesced list that covers five, and the overlapping list that inserting five makes of it. |
| `RangeList.InsertedCovers` | Include/DS_RangeList.h:159-218 | The numbers covered afterwards, whatever the list looked like. |
| `RangeList.InsertedSum` | Include/DS_RangeList.h:233-239 | An uncovered number adds exactly one to the sum. |
| `RangeList.AscendingKeeps` | Include/DS_RangeList.h:159-218 | A number above all ranges is never repeated or split off. |
| `RangeList.FillAscending` | Include/DS_RangeList.h:159-218 | A coalesced list filled with any ascending numbers above what it covers stays coalesced, covers them too, and its sum counts every one. |
| `RangeList.SumCounts` | Include/DS_RangeList.h:233-239 | While no number lies in two ranges, the sum counts the numbers covered. |
| `RangeList.RangeList.RangeSum` | Include/DS_RangeList.h:233-239 | The lengths of the ranges added up. |
| `RangeList.RangeList.Serialize` | Include/DS_RangeList.h:65-113 | The ranges sent are the longest run the guard lets in, the guard's sum being within the limit for every one of them and past it for the first left behind; they stand in the stream from the next byte on in their wire form; the number returned is their length in bits and is sixteen or at most seven over the limit; a cleared list keeps exactly the rest. |
| `RangeList.FittingBits` | Include/DS_RangeList.h:74-92 | The guard reserves one bit for a flag that takes eight, and by no more than that can the limit be passed. |
| `RangeList.FittingProgress` | Include/DS_RangeList.h:74-92 | When one range of the widest kind fits, a call on a non-empty list sends at least one. |
| `RangeList.PiecesDrain` | Include/DS_RangeList.h:101-110 | The pieces that call after call would send, put together, are the list. |
| `RangeList.RangeList.Deserialize` | Include/DS_RangeList.h:115-144 | Once a count stands in the stream: true exactly when as many ranges as it announces were read, each of them standing in the bits where the one before ended, its numbers present and not backwards; false exactly when at the end of those read a number is missing or a maximum lies below its minimum. Where the wire form of some ranges stands, exactly those are read and the reader stops at their end. |
| `RangeList.ReadNode` | Include/DS_RangeList.h:125-140 | One range read, or none: exactly when its numbers are there and not backwards it is the one the bits spell, and the reader stops behind it. |
| `RangeList.RangeOrNone` | Include/DS_RangeList.h:125-140 | No bits both hold a range and fail to hold one. |
| `RangeList.SendAndReceive` | Include/DS_RangeList.h:65-144 | What one call sends arrives as it was, and the reader ends where the writer does. |
| `RangeList.Transfer` | Include/DS_RangeList.h:65-144 | Sending with clearing, call after call until the list is empty, and receiving each time: the lists received, put together, are the list. |
| `RangeList.RangeList.GetIndexFromKey` | Include/DS_OrderedList.h:119-167 | Binary search: the range that begins at the key, or the first that begins after it. |
| `RangeList.RangeList.InsertRange` | Include/DS_OrderedList.h:170-199 | A range goes where its beginning sorts, and the place is reported; when a range begins there already, nothing changes and minus one is reported. |
| `Hash.Hash.Push` | Include/DS_Hash.h:92-106 | The value is on top of its key's stack, the stacks of all other keys and the order in every chain are as before, and the size counts one more. |
| `Hash.Hash.Peek` | Include/DS_Hash.h:109-123 | The latest value pushed under the key and not removed, or none exactly when there is none. |
| `Hash.Hash.Pop` | Include/DS_Hash.h:126-181 | The latest value under the key leaves and is handed back; every other key's stack and the order of the other entries are as before; nothing changes when there is none. |
| `Hash.Hash.RemoveAtIndex` | Include/DS_Hash.h:184-224 | Exactly the entry named leaves its chain and the others keep their order. |
| `Hash.Hash.Remove` | Include/DS_Hash.h:227-230 | The same entry goes as by popping. |
| `Hash.Hash.GetIndexOf` | Include/DS_Hash.h:233-262 | The place of the latest entry under the key, or none exactly when there is none. |
| `Hash.Hash.ClearIndex` | Include/DS_Hash.h:313-325 | Every entry of one chain goes and the size counts them off. |
| `Hash.StackTop` | Include/DS_Hash.h:126-181 | The first entry under a key in its chain is the top of its stack, and the rest is the stack below. |
| `Hash.StackOther` | Include/DS_Hash.h:126-181 | Taking an entry of one key leaves the stack of every other key as it was, also of those in the same chain. |
| `SmartPtr.RakNetSmartPtr.Own` | Include/RakNetSmartPtr.h:51-58 | A pointer with a counter of its own at one, over a target no pointer held. |
| `SmartPtr.RakNetSmartPtr.Copy` | Include/RakNetSmartPtr.h:60-64 | The copy shares target and counter, and the counter counts it. |
| `SmartPtr.RakNetSmartPtr.Destroy` | Include/RakNetSmartPtr.h:66-76 | The target and the counter are deleted exactly when the pointer was the last; no other pointer is touched. |
| `SmartPtr.RakNetSmartPtr.SetNull` | Include/RakNetSmartPtr.h:83-95 | The same, and the pointer then holds nothing. |
| `SmartPtr.RakNetSmartPtr.Assign` | Include/RakNetSmartPtr.h:155-175 | The pointer holds what the other holds, what it let go of is deleted exactly when it was the last there, and assigning a pointer to itself changes nothing. |
| `SmartPtr.RakNetSmartPtr.IsUnique` | Include/RakNetSmartPtr.h:97-100 | Exactly when no other pointer shares the counter. |
| `SmartPtr.RakNetSmartPtr.Clone` | Include/RakNetSmartPtr.h:103-116 | Afterwards the pointer shares with none; if it shared before, it has a fresh target, with the old contents if asked, and the others keep theirs. |
| `SmartPtr.LeaveShared` | Include/RakNetSmartPtr.h:66-76 | A pointer that leaves a counter others share leaves every count exact and every target held. |
| `SmartPtr.LeaveLast` | Include/RakNetSmartPtr.h:66-76 | The last to leave takes counter and target along, and no other pointer held either. |
| `SmartPtr.Added` | Include/RakNetSmartPtr.h:51-64 | A pointer that brings a target of its own or joins another keeps every count exact and every target held. |
| `SmartPtr.NothingLeft` | Include/RakNetSmartPtr.h:66-76 | Once every pointer is gone no counter and no target is left: nothing leaks. |

## Left out

- B+ tree: orders 2 and 3, with their patches for empty leaves; calls other than `Size` after a key has been put in twice; `Clear`, the `ForEach` calls and printing. Pages come and go as new and dropped objects; the page pool is modelled on its own. Keys are integers, and `out` parameters are passed in and handed back.
- The pages' arrays are sequences of fixed length held in fields and overwritten slot by slot.
- Heap: `Pop` at an index other than the first, which lacks a sift-up; `Peek`, `Clear` and indexing.
- Weighted graph: rows are maps from nodes to costs instead of slices of one array with an index list; edges are tried in any order instead of key order, so the choice among equally cheap nodes is open, and every result here holds for each choice. `RemoveNode`, `RemoveConnection`, copying and printing. The calls that read the matrix require it to be up to date, since adding nodes and edges does not discard it.
- GetSpanningTree: the tree is the list of its nodes in the order they are made, each with the number of its parent, instead of linked tree objects.
- Memory pool: page sizes with room for one block only, `Clear`, changing the page size in use, and failing allocation. The stack of free blocks and the blocks of a page are sequences, and a freed page is a page on neither list.
- Queue: the copy constructor and assignment, `PopDeref`, `ClearAndForceAllocation`, and the wrap-around of 32-bit sizes.
- Threads: the queue's own steps under the mutex are single steps on a sequence (the queue's refinement is proved in `Queue`); the separate mutex of the block pool, `Clear` and `RemoveAtIndex` are left out. The unlocked test may come out either way.
- Binary search tree: deletion, whose rebalancing is not sound, and traversals. Items are integers.
- Linked list: the sorted insertion, searching and the plain linked list. The copy constructor is a method, and assignment copies by way of it. Items are integers.
- Multilist: the queue mode, removal, and switching the kind at run time. Both quicksorts are one method with the order as a parameter. Items are integers, for which equal items are the same item.
- Bit stream: `WriteBits`, `ReadBits`, single bits and storage growth have no body in the repository's headers and are modelled by what they must do; `NumberOfLeadingZeroes` likewise, and a range with equal bounds, for which it would be asked about zero, is left out. Compressed and floating-point forms, strings and addresses are left out.
- Range list: the number type is an unsigned integral type whose sums wrap at its modulus, as for `unsigned int`; the 24-bit type's own alignment on the wire is not part of the wire form here. Counts and bit sizes are unbounded.
- Hash: `Clear`, `GetAsList`, `ItemAtIndex` and `KeyAtIndex`; values are not changed through the pointer `Peek` hands out. Rows of chains are a sequence.
- Smart pointer: deletion is recorded in a ghost memory that demands what is deleted exists; targets that themselves hold smart pointers are left out.
- DS_Table.h, DS_ByteQueue.h, DS_BytePool.h and the cryptographic and compression code are not part of this model: their bodies are not in the repository.
- Networking, plugins, sockets, consoles and loggers are declarations only and are left out; `DS_List.h` and `DS_Map.h` would add only easy members.
