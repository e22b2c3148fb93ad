# sssp-kt in Dafny

This project is a verified model of the core of sssp-kt. sssp-kt is a Kotlin
library for single-source shortest paths on directed graphs with
non-negative weights. It implements the bounded multi-source shortest path
recursion (BMSSP) of "Breaking the Sorting Barrier for Directed
Single-Source Shortest Paths" and the data structures that recursion uses.
For graphs of at most 64 vertices, the entry point falls back to a binary-heap
Dijkstra.

The model follows the Kotlin files one module each:

| Dafny file | module | Kotlin file |
|---|---|---|
| common.dfy | Common | shared: distances `Dist = Fin(r) \| Inf`, pairs `Entry(key, value)`, list-as-set helpers |
| graphs.dfy | Graphs | shared: adjacency lists, walks, and what "sound" and "shortest" mean for a distance table |
| doubly_linked_list.dfy | LinkedLists | DoublyLinkedList.kt |
| entry_sort.dfy | EntrySorting | `sortBy { it.second }` as used by PartialHeap.kt |
| binary_heap.dfy | BinaryHeaps | BinaryHeap.kt |
| dijkstra.dfy | Dijkstras | Dijkstra.kt |
| block_queue.dfy, block_build.dfy, block_split.dfy, block_batch.dfy, block_pull.dfy | BlockQueues, BlockBuilds, BlockSplits, BlockBatches, BlockPulls | the value-level state and invariant of PartialHeap.kt, and one lemma family per operation |
| partial_heap.dfy | PartialHeaps | PartialHeap.kt (class `PartialHeap`) |
| bmssp.dfy | Bmssps | BMSSP.kt (`BMSSP`, `baseCase`, `findPivots` with `dfs`) |
| graph_transform.dfy, graph_transform_facts.dfy | GraphTransform, GraphTransformFacts | GraphTransform.kt |
| sssp.dfy | ShortestPaths | `singleSourceShortestPaths` in SSSP.kt and the three test graphs in SSSPTest.kt |

SSSP.kt also holds copies of the code in the other files at lines 14-340
and 363-504. Those copies are modelled once, from their own files. Only
`singleSourceShortestPaths` at SSSP.kt:342-361 is modelled from SSSP.kt.

## How the model is built

- **Distances.** A distance is `Fin(r)` with `r` a non-negative real, or
  `Inf`, which stands for `Double.POSITIVE_INFINITY`. Weights are
  non-negative reals. `Add`, `Le` and `Lt` are exact. There is no rounding.
- **State that changes in place stays in place.**
  - `DoublyLinkedList`, `BinaryHeap` and `PartialHeap` are classes. Their
    fields are those of the Kotlin classes.
  - Distance and predecessor arrays are Dafny `array`s.
  - `dist` in Dijkstra, `sizes` in `dfs`, `rep` in the transform and
    `treeAdj` in `findPivots` are arrays too.
  - Each loop of the source is a `while` or `for` loop with invariants.
- **Nodes.** A Kotlin `Node` reference becomes an index into a node arena
  (`seq<Node<T>>`) that the owning object holds. Nodes carry `value`, `prev`,
  `next`, `blockIndex` and `isD0` as in DoublyLinkedList.kt:3-6.
  - `DoublyLinkedList` has its own arena.
  - `PartialHeap` holds one arena for all of its blocks. Its blocks are
    values `Blk(head, tail, size, ...)` over that arena, so `keyToNode`
    and the `blockIndex` tags alias exactly as in the source.
- **The PartialHeap invariant.** `BlockQueues.Inv` says that `keyToNode`,
  the blocks, the node tags and the upper bounds agree with a ghost map
  `Content` from key to value. Every `PartialHeap` method keeps it.
- **Sets.** `mutableSetOf`, `toSet` and set `+` build insertion-ordered
  sets in Kotlin. Each becomes a duplicate-free sequence in insertion order
  (`Common.AddAll` is `addAll` and set union), so iteration follows the
  source. This covers `S`, `W`, `U`, `kSet`, `addBack`, the batch passed to
  `batchPrepend` and `allNeighbors[v]`, which lists the in-neighbours by
  vertex, then the out-neighbours in edge order. `S.first()` is `S[0]`.
- **BMSSP proofs.** Each call is proved to keep the distance table sound:
  every finite entry is the length of a walk from the source. It also keeps
  the predecessor table consistent, lowers entries only, and returns the
  vertex sets and bounds each function promises.

## Model

| member | source | states |
|---|---|---|
| Common.Add | sssp/src/commonMain/kotlin/BMSSP.kt:30-31 | `d[u] + w` never lowers a distance and is infinite exactly when `d[u]` is (non-negative weights, IEEE `Inf + w = Inf`) |
| Common.Min | sssp/src/commonMain/kotlin/BMSSP.kt:47 | `min(lastBPrime, B)` is at most both arguments and is one of them |
| Common.KeySet | sssp/src/commonMain/kotlin/PartialHeap.kt:157 | `collected.map { it.first }.toSet()`: every key of the list is in the set, every key in the set comes from the list, and the set is no larger than the list |
| Common.Keys | sssp/src/commonMain/kotlin/PartialHeap.kt:168 | `map { it.first }` keeps length and position |
| Common.AddAllProps | sssp/src/commonMain/kotlin/BMSSP.kt:26 | `U.addAll(ui)`: afterwards the set holds exactly the old elements and the added ones, and it stays duplicate-free |
| Graphs.RelaxKeepsSound | sssp/src/commonMain/kotlin/BMSSP.kt:30-32 | writing `d[v] = d[u] + w` for an edge u -> v keeps every finite entry the length of some walk from the source |
| Graphs.RelaxKeepsPredLink | sssp/src/commonMain/kotlin/BMSSP.kt:30-32 | setting `pred[v] = u` on a relaxation keeps every recorded predecessor an in-neighbour whose distance plus the edge is at most the recorded distance |
| Graphs.RelaxedBoundsWalks | sssp/src/commonMain/kotlin/Dijkstra.kt:11-16 | once every reached vertex is relaxed, an entry is at most the length of any walk from the source to that vertex |
| Graphs.RelaxedSoundIsShortest | sssp/src/commonMain/kotlin/Dijkstra.kt:3-19 | sound plus relaxed at every reached vertex means the table holds exact shortest distances, with `Inf` exactly for unreachable vertices |
| LinkedLists.AppendKeepsChain | sssp/src/commonMain/kotlin/DoublyLinkedList.kt:13-20 | appending a node after the tail keeps the prev/next chain consistent in both directions and moves no stored value |
| LinkedLists.UnlinkKeepsChain | sssp/src/commonMain/kotlin/DoublyLinkedList.kt:22-28 | unlinking the k-th node leaves the chain of the others in order and moves no stored value |
| LinkedLists.RemoveKeepsWf | sssp/src/commonMain/kotlin/DoublyLinkedList.kt:22-28 | removal updates head and tail exactly when the node was there, decrements size, and leaves a well-formed list of the other values |
| LinkedLists.ListAdd | sssp/src/commonMain/kotlin/DoublyLinkedList.kt:13-20 | `add` on an arena: the new node is the last of the order, the value is appended to the contents, and the list stays well formed |
| LinkedLists.ListRemove | sssp/src/commonMain/kotlin/DoublyLinkedList.kt:22-28 | `remove` on an arena: the node and its value leave the order at their position and the list stays well formed |
| LinkedLists.Collect | sssp/src/commonMain/kotlin/DoublyLinkedList.kt:32-40 | walking `next` from head returns exactly the stored values in list order |
| LinkedLists.DoublyLinkedList.constructor | sssp/src/commonMain/kotlin/DoublyLinkedList.kt:8-11 | a new list is empty and valid |
| LinkedLists.DoublyLinkedList.Add | sssp/src/commonMain/kotlin/DoublyLinkedList.kt:13-20 | the returned node is the new tail, contents gain the value at the end, size grows by one |
| LinkedLists.DoublyLinkedList.Remove | sssp/src/commonMain/kotlin/DoublyLinkedList.kt:22-28 | the node's value leaves the contents at its position, size drops by one, the list stays valid |
| LinkedLists.DoublyLinkedList.IsEmpty | sssp/src/commonMain/kotlin/DoublyLinkedList.kt:30 | true exactly when the contents are empty |
| LinkedLists.DoublyLinkedList.ToMutableList | sssp/src/commonMain/kotlin/DoublyLinkedList.kt:32-40 | returns the contents in order |
| EntrySorting.SortByValue | sssp/src/commonMain/kotlin/PartialHeap.kt:73 | the result is a permutation of the input sorted by value |
| EntrySorting.InsertSorted | sssp/src/commonMain/kotlin/PartialHeap.kt:167 | one step of the sort: the result is sorted and a permutation of the old one plus the entry |
| EntrySorting.PermutedKeys | sssp/src/commonMain/kotlin/PartialHeap.kt:115 | a permutation of pairs with distinct keys has distinct keys |
| BinaryHeaps.Swapped | sssp/src/commonMain/kotlin/BinaryHeap.kt:51-55 | exchanging two slots changes only those two and keeps the multiset |
| BinaryHeaps.HeapRootMin | sssp/src/commonMain/kotlin/BinaryHeap.kt:11-20 | in a heap the root's value is at most every stored value |
| BinaryHeaps.BinaryHeap.constructor | sssp/src/commonMain/kotlin/BinaryHeap.kt:3-4 | a new heap is valid and empty |
| BinaryHeaps.BinaryHeap.Add | sssp/src/commonMain/kotlin/BinaryHeap.kt:6-9 | keeps the heap order and adds exactly the element to the contents |
| BinaryHeaps.BinaryHeap.Poll | sssp/src/commonMain/kotlin/BinaryHeap.kt:11-20 | null exactly on an empty heap; otherwise returns an element of minimum value and removes exactly that element |
| BinaryHeaps.BinaryHeap.IsNotEmpty | sssp/src/commonMain/kotlin/BinaryHeap.kt:22 | true exactly when the contents are non-empty |
| BinaryHeaps.BinaryHeap.SiftUp | sssp/src/commonMain/kotlin/BinaryHeap.kt:24-33 | from a heap broken only at index, restores the heap order and permutes the slots |
| BinaryHeaps.BinaryHeap.SiftDown | sssp/src/commonMain/kotlin/BinaryHeap.kt:35-49 | from a heap broken only below index, restores the heap order and permutes the slots |
| BinaryHeaps.BinaryHeap.Swap | sssp/src/commonMain/kotlin/BinaryHeap.kt:51-55 | the heap becomes the two-slot exchange of the old one |
| Dijkstras.InitInv | sssp/src/commonMain/kotlin/Dijkstra.kt:4-7 | 0 at the source, `Inf` elsewhere and one queued pair establish the loop invariant |
| Dijkstras.PopStale | sssp/src/commonMain/kotlin/Dijkstra.kt:10 | a popped pair whose value exceeds the current entry is dropped without relaxing, and the invariant holds for the rest of the queue |
| Dijkstras.PopFresh | sssp/src/commonMain/kotlin/Dijkstra.kt:9-10 | a popped minimum pair that is current settles a new vertex at exactly that distance |
| Dijkstras.EmptyHeapShortest | sssp/src/commonMain/kotlin/Dijkstra.kt:8-19 | when the queue is empty the invariant gives exact shortest distances |
| Dijkstras.Dijkstra | sssp/src/commonMain/kotlin/Dijkstra.kt:3-19 | returns n entries, 0 at the source, and every entry is the exact shortest distance (`Inf` exactly when unreachable) |
| Dijkstras.RelaxOutEdges | sssp/src/commonMain/kotlin/Dijkstra.kt:11-17 | relaxing every out-edge of a settled vertex keeps the invariant and leaves that vertex relaxed |
| BlockQueues.Locate | sssp/src/commonMain/kotlin/PartialHeap.kt:42-45 | a stored key's node sits in the block its `isD0`/`blockIndex` tags name, holding the key's current value |
| BlockQueues.KeyUnique | sssp/src/commonMain/kotlin/PartialHeap.kt:7 | no key is stored in two places across D0 and D1 |
| BlockQueues.RemoveInv | sssp/src/commonMain/kotlin/PartialHeap.kt:46-47 | unlinking a stored node and dropping its key from `keyToNode` keeps the invariant for the map without that key |
| BlockQueues.DropInv0 | sssp/src/commonMain/kotlin/PartialHeap.kt:49-51 | removing an empty D0 block leaves only the tags of later D0 blocks stale |
| BlockQueues.DropInv1 | sssp/src/commonMain/kotlin/PartialHeap.kt:52-55 | removing an empty D1 block with its bound leaves only the tags of later D1 blocks stale |
| BlockQueues.RetagInv0 | sssp/src/commonMain/kotlin/PartialHeap.kt:60-68 | renumbering the nodes of every D0 block from the start index repairs stale tags |
| BlockQueues.AddInv | sssp/src/commonMain/kotlin/PartialHeap.kt:19-24 | appending a pair to the D1 block chosen by its bound, tagged with that index, keeps the invariant with the key added |
| BlockBuilds.FillBlock | sssp/src/commonMain/kotlin/PartialHeap.kt:80-94 | building a block from a list appends fresh nodes holding the list in order, tags them with one index and flag, and points each key at its node |
| BlockSplits.MaxValueOr | sssp/src/commonMain/kotlin/PartialHeap.kt:97-100 | `maxOfOrNull { it.second } ?: default`: default for an empty list, otherwise a value of the list that bounds all of them |
| BlockSplits.SplitSorted | sssp/src/commonMain/kotlin/PartialHeap.kt:97-100 | the two new bounds keep `upperBounds` sorted |
| BlockSplits.SplitBounded | sssp/src/commonMain/kotlin/PartialHeap.kt:96-100 | the two halves respect their new bounds |
| BlockSplits.SplitInv | sssp/src/commonMain/kotlin/PartialHeap.kt:70-100 | after the split only the tags of D1 blocks beyond the two halves can be stale |
| BlockSplits.SplitBreaksInv | sssp/src/commonMain/kotlin/PartialHeap.kt:99 | as written, a non-empty block after the split block keeps its old index and the invariant fails |
| BlockBatches.CreateBlocks | sssp/src/commonMain/kotlin/PartialHeap.kt:120-139 | the blocks hold the list in order, split recursively at BlockCut until a part has at most M pairs (`Layout`); none holds more than M pairs, none is empty when the list is not, and each key points at its node |
| BlockBatches.CreateCutBlocks | sssp/src/commonMain/kotlin/PartialHeap.kt:130-137 | a list longer than M: the blocks of the left part followed by those of the right part, non-empty and of at most M pairs each, laid out as `Layout` of the whole list |
| BlockBatches.BlockCut | sssp/src/commonMain/kotlin/PartialHeap.kt:131-134 | the cut lies strictly inside the list; whenever the `takeWhile { it.second <= median }` prefix is neither empty nor the whole list, the two parts are exactly `takeWhile` and `dropWhile`; when it is the whole list, the cut is the median index |
| BlockBatches.SortedCutAgrees | sssp/src/commonMain/kotlin/PartialHeap.kt:131-134 | on a sorted list whose median-value prefix is not the whole list, the cut gives exactly the source's left and right lists |
| BlockBatches.CutPastMedian | sssp/src/commonMain/kotlin/PartialHeap.kt:131-133 | on a sorted list, the prefix of values at most the median value reaches past the median index, so the left list is never empty |
| BlockBatches.PrefixAtMost | sssp/src/commonMain/kotlin/PartialHeap.kt:133-134 | `takeWhile { it.second <= v }` takes the longest prefix of values at most v |
| BlockBatches.MedianCut | sssp/src/commonMain/kotlin/PartialHeap.kt:131-134 | the cut as written splits the list into a prefix and the rest |
| BlockBatches.MedianCutStalls | sssp/src/commonMain/kotlin/PartialHeap.kt:131-135 | when the median value is the largest, the left part of the cut is the whole list |
| BlockBatches.TwoEntriesStall | sssp/src/commonMain/kotlin/PartialHeap.kt:122-135 | every sorted two-pair list is cut into itself and nothing |
| BlockBatches.MergeOne | sssp/src/commonMain/kotlin/PartialHeap.kt:104-111 | one pair merged into a key map: its key ends at the smaller of the stored and the new value, no other key changes |
| BlockBatches.FindKey | sssp/src/commonMain/kotlin/PartialHeap.kt:104-111 | finds the kept pair with a given key, or -1 exactly when there is none |
| BlockBatches.MergeOutcome | sssp/src/commonMain/kotlin/PartialHeap.kt:104-111 | each outcome of the corrected filter for one pair (lowers a kept value, keeps it, removes a larger stored value, keeps the stored one, adds a new key) merges the pair into the stored map plus the kept pairs, and changes at most the pair's key, downwards |
| BlockBatches.ChangedStep | sssp/src/commonMain/kotlin/PartialHeap.kt:104-111 | after such a step the kept pairs are still exactly the keys whose value is new or changed since the call began |
| BlockBatches.FilterFacts | sssp/src/commonMain/kotlin/PartialHeap.kt:104-111 | one pair of the loop keeps both the minimum merge of the pairs seen so far and the changed-keys fact |
| BlockBatches.PendingKept | sssp/src/commonMain/kotlin/PartialHeap.kt:113-117 | the kept pairs have distinct keys, carry the final stored value of their key, and are exactly the keys that are new or whose value changed |
| BlockBatches.PrependInv | sssp/src/commonMain/kotlin/PartialHeap.kt:115-116 | the new blocks in front of D0 keep the invariant for the merged map, except for the D0 tags |
| BlockBatches.FilterAsWritten | sssp/src/commonMain/kotlin/PartialHeap.kt:104-111 | the filter as written keeps a sublist of the input |
| BlockBatches.FilterKeepsDuplicates | sssp/src/commonMain/kotlin/PartialHeap.kt:104-111 | the filter as written keeps both `(7, 5.0)` and `(7, 3.0)`, whether or not key 7 is stored |
| BlockBatches.DuplicateBreaksCore | sssp/src/commonMain/kotlin/PartialHeap.kt:7 | two stored pairs with the same key break the one-node-per-key invariant |
| BlockPulls.FrontFacts | sssp/src/commonMain/kotlin/PartialHeap.kt:142-154 | the gathered pairs have distinct keys and their stored values; gathering every block gathers every key |
| BlockPulls.DropFrontBreaksInv | sssp/src/commonMain/kotlin/PartialHeap.kt:159-163 | as written, dropping front blocks without renumbering breaks the invariant whenever a non-empty block stays behind |
| BlockPulls.SlowPathFacts | sssp/src/commonMain/kotlin/PartialHeap.kt:166-171 | after sorting, the first M keys are stored, their values are at most the next value x, x belongs to a gathered pair not taken, and x bounds every pair not taken |
| PartialHeaps.RetagBlock | sssp/src/commonMain/kotlin/PartialHeap.kt:62-66 | walking a block sets the index tag of exactly its nodes |
| PartialHeaps.UpdateBlockIndices | sssp/src/commonMain/kotlin/PartialHeap.kt:60-68 | every block from the start index gets its position as tag |
| PartialHeaps.Unindex | sssp/src/commonMain/kotlin/PartialHeap.kt:42-47 | unlinks the node of a key and drops that key, keeping the invariant: its block, in the tier and at the position its tags name, loses exactly the key's entry and one from its size, and every other block is unchanged |
| PartialHeaps.SplitBlock | sssp/src/commonMain/kotlin/PartialHeap.kt:70-100 | the block becomes its sorted lower half and upper half, a permutation of it, with the bounds given by their maxima |
| PartialHeaps.SortedEntries | sssp/src/commonMain/kotlin/PartialHeap.kt:72-73 | the block's pairs as a sorted permutation with distinct keys |
| PartialHeaps.AddToD1 | sssp/src/commonMain/kotlin/PartialHeap.kt:20-24 | appends the pair to block bi of D1 only and stores its key |
| PartialHeaps.SortedBlocks | sssp/src/commonMain/kotlin/PartialHeap.kt:115 | `createBlocks(list.sortedBy { it.second })`: the blocks hold a sorted permutation of the list, laid out as `Layout` of it |
| PartialHeaps.PrependBatch | sssp/src/commonMain/kotlin/PartialHeap.kt:113-117 | the kept pairs become new D0 blocks of at most M pairs in front of the old D0 and the map gains them; the new front blocks hold exactly the kept pairs, sorted by value and cut as `createBlocks` cuts |
| PartialHeaps.Gather | sssp/src/commonMain/kotlin/PartialHeap.kt:142-154 | gathers whole front blocks of D0 then D1 and stops exactly when M pairs are reached or all blocks are gathered |
| PartialHeaps.Unmap | sssp/src/commonMain/kotlin/PartialHeap.kt:164 | `keyToNode` loses exactly the gathered keys |
| PartialHeaps.DropBlocks | sssp/src/commonMain/kotlin/PartialHeap.kt:159-164 | drops the gathered front blocks and bounds and their keys; the tags of what remains are stale |
| PartialHeaps.DropFront | sssp/src/commonMain/kotlin/PartialHeap.kt:159-164 | corrected: the same, followed by renumbering both tiers, keeping the invariant |
| PartialHeaps.PartialHeap.constructor | sssp/src/commonMain/kotlin/PartialHeap.kt:3-11 | a new queue is empty, with one empty D1 block of bound B |
| PartialHeaps.PartialHeap.IsEmpty | sssp/src/commonMain/kotlin/PartialHeap.kt:175 | true exactly when no key is stored |
| PartialHeaps.PartialHeap.RemoveNode | sssp/src/commonMain/kotlin/PartialHeap.kt:42-58 | removes exactly one key: its entry leaves the block its tags name (`TierRemoved`); a block of one entry is dropped from its tier, and from a D1 tier with its bound, otherwise it keeps the rest of its entries; the other tier is unchanged, and the tags of what stays are correct (`Valid`) |
| PartialHeaps.PartialHeap.DropEmptyBlock | sssp/src/commonMain/kotlin/PartialHeap.kt:48-56 | an empty block leaves its tier (with its bound in D1) and nothing else changes |
| PartialHeaps.PartialHeap.BinarySearchUpperBounds | sssp/src/commonMain/kotlin/PartialHeap.kt:28-40 | returns the first index whose bound is at least the value, clamped to the last index; -1 when there are no bounds |
| PartialHeaps.PartialHeap.Split | sssp/src/commonMain/kotlin/PartialHeap.kt:70-101 | corrected split: the block becomes its sorted halves (left has `size / 2` pairs) with their bounds, later blocks are renumbered, contents unchanged |
| PartialHeaps.PartialHeap.SplitAsWritten | sssp/src/commonMain/kotlin/PartialHeap.kt:70-101 | the split as written: contents unchanged, but a non-empty block after the split one leaves the queue invalid |
| PartialHeaps.PartialHeap.Insert | sssp/src/commonMain/kotlin/PartialHeap.kt:13-26 | a key stored with a value at most the new one leaves the queue unchanged; otherwise the key takes the new value in a D1 block whose node is tagged correctly |
| PartialHeaps.PartialHeap.Place | sssp/src/commonMain/kotlin/PartialHeap.kt:19-25 | an absent key is stored with its value in D1; with no D1 block left, D1 restarts as in the constructor |
| PartialHeaps.PartialHeap.FilterPair | sssp/src/commonMain/kotlin/PartialHeap.kt:104-111 | one pair of the filter: the stored map plus the kept pairs becomes their merge with the pair, and either nothing changes or the pair's key takes the pair's value, lower than any it had |
| PartialHeaps.PartialHeap.FilterStored | sssp/src/commonMain/kotlin/PartialHeap.kt:106-110 | a pair whose key is stored: a smaller value removes the stored key and keeps the pair, otherwise nothing changes and the stored value is at most the pair's |
| PartialHeaps.PartialHeap.FilterAll | sssp/src/commonMain/kotlin/PartialHeap.kt:104-112 | the whole filter: the stored map plus the kept pairs is the minimum merge of L, and the kept pairs are exactly the keys that are new or changed |
| PartialHeaps.PartialHeap.PrependKept | sssp/src/commonMain/kotlin/PartialHeap.kt:113-117 | no kept pair prepends nothing; otherwise the kept pairs join the map as front D0 blocks that hold them sorted, each non-empty and of at most M pairs |
| PartialHeaps.PartialHeap.BatchPrepend | sssp/src/commonMain/kotlin/PartialHeap.kt:103-118 | every key ends at the minimum of its stored value and the batch's values and no other key changes; the surviving pairs are exactly the keys that are new or lowered, with their final values, and the first blocks of D0 hold exactly them, sorted by value, each non-empty and of at most M pairs, laid out as `createBlocks` cuts |
| PartialHeaps.PartialHeap.RemoveKeys | sssp/src/commonMain/kotlin/PartialHeap.kt:170 | removes exactly the listed keys |
| PartialHeaps.PartialHeap.TakeFront | sssp/src/commonMain/kotlin/PartialHeap.kt:156-165 | fast path: returns B and the gathered keys, which leave the queue with their blocks; fewer than M gathered leaves the queue empty |
| PartialHeaps.PartialHeap.TakeFrontAsWritten | sssp/src/commonMain/kotlin/PartialHeap.kt:156-165 | fast path as written: a non-empty block left behind a dropped one makes the queue invalid |
| PartialHeaps.PartialHeap.TakeSmallest | sssp/src/commonMain/kotlin/PartialHeap.kt:166-172 | slow path: M keys at most x leave the queue, x is the value of a gathered pair left behind, and x bounds every such pair |
| PartialHeaps.PartialHeap.Pull | sssp/src/commonMain/kotlin/PartialHeap.kt:141-173 | the returned keys are distinct, at most M, left the queue and were gathered; empty only if the queue was; bound B when at most M were gathered; otherwise the M-smallest split with the next value as bound |
| PartialHeaps.SearchAfterDrainingPull | sssp/src/commonMain/kotlin/PartialHeap.kt:19-20 | after a pull that gathers fewer than M pairs, D1 and `upperBounds` are empty and the search returns -1 |
| Bmssps.Pow2 | sssp/src/commonMain/kotlin/BMSSP.kt:12 | `1 shl x` is at least 1 |
| Bmssps.MaxDist | sssp/src/commonMain/kotlin/BMSSP.kt:75 | `u0.maxOf { d[it] }` is the distance of a member and bounds all of them |
| Bmssps.MinDist | sssp/src/commonMain/kotlin/BMSSP.kt:17 | `P.minOf { d[it] }` is the distance of a member and is below all of them |
| Bmssps.Below | sssp/src/commonMain/kotlin/BMSSP.kt:48 | `W.filter { d[it] < b }` keeps exactly the members below b, without duplicates |
| Bmssps.AddBack | sssp/src/commonMain/kotlin/BMSSP.kt:42 | exactly the pairs `(v, d[v])` of pulled vertices with `bPrimeNew <= d[v] < bi`, without duplicate keys |
| Bmssps.BaseRelax | sssp/src/commonMain/kotlin/BMSSP.kt:63-69 | relaxing the edges of a popped vertex below B keeps the base-case invariant and lowers entries only |
| Bmssps.BaseStep | sssp/src/commonMain/kotlin/BMSSP.kt:60-69 | one iteration of the base-case loop keeps the invariant and makes progress |
| Bmssps.BaseCase | sssp/src/commonMain/kotlin/BMSSP.kt:53-79 | u0 starts at `S.first()`, holds at most k+1 distinct vertices below B (besides the first); with at most k, returns B and u0; otherwise returns the largest distance of u0 and the members strictly below it |
| Bmssps.PivotEdges | sssp/src/commonMain/kotlin/BMSSP.kt:87-95 | relaxing the edges of one frontier vertex with `<=`; the new frontier is duplicate-free and holds vertices below B only |
| Bmssps.PivotRound | sssp/src/commonMain/kotlin/BMSSP.kt:85-96 | one round of findPivots keeps the tables sound and builds a frontier below B |
| Bmssps.Dfs | sssp/src/commonMain/kotlin/BMSSP.kt:117-122 | memoised subtree size: at least 1, stored in `sizes`, earlier results kept, and a first visit counts at least the vertex and its children |
| Bmssps.PivotRounds | sssp/src/commonMain/kotlin/BMSSP.kt:82-102 | W holds S and otherwise vertices below B; an early return means W outgrew k·|S|, and otherwise W did not |
| Bmssps.TightEdges | sssp/src/commonMain/kotlin/BMSSP.kt:104-111 | every pair of f is an edge from W with `d[v] == d[u] + w` |
| Bmssps.BuildForest | sssp/src/commonMain/kotlin/BMSSP.kt:113-114 | `treeAdj` holds tight edges from W only |
| Bmssps.SelectPivots | sssp/src/commonMain/kotlin/BMSSP.kt:116-125 | P is a duplicate-free subset of S; with k <= 1 every source is a pivot |
| Bmssps.FindPivots | sssp/src/commonMain/kotlin/BMSSP.kt:81-127 | tables stay sound; W holds S and vertices below B; P is a subset of S, equal to S on early return; otherwise the forest is made of tight edges out of W |
| Bmssps.Route | sssp/src/commonMain/kotlin/BMSSP.kt:33-38 | a value in [bi, B) goes into the queue, a value in [bPrimeNew, bi) goes into kSet, any other value goes nowhere |
| Bmssps.RelaxFrom | sssp/src/commonMain/kotlin/BMSSP.kt:29-40 | relaxing the out-edges of one vertex keeps the tables sound, keeps every queued value at least the distance, and gives kSet only pairs in [bPrimeNew, bi) |
| Bmssps.RelaxAll | sssp/src/commonMain/kotlin/BMSSP.kt:27-41 | the same for all of ui |
| Bmssps.InsertPivots | sssp/src/commonMain/kotlin/BMSSP.kt:14 | every pivot is queued with a value at most its distance |
| Bmssps.PullNext | sssp/src/commonMain/kotlin/BMSSP.kt:24 | a pull from a non-empty queue returns a non-empty set of distinct vertices, which leave the queue; they were keys of the queue, and the bound bi is the queue's bound B or M keys came back whose values were at most bi (`PullBound`) |
| Bmssps.Descend | sssp/src/commonMain/kotlin/BMSSP.kt:25 | the recursive call `BMSSP(l - 1, bi, si)`: its record has bound bi and sources si, starts on the current table and ends on the new one, returns the call's bound and vertices, and is a level l - 1 call down its whole tree |
| Bmssps.Round | sssp/src/commonMain/kotlin/BMSSP.kt:23-44 | one loop round: the ghost record sub is the level l - 1 call, traced down its whole tree (`Recorded`), made from the pulled sources and bound (`PullBound` over the queue before the pull), starting on the round's first table and ending on one the relaxation then only lowers; bPrimeNew is that call's bound and U' is U together with exactly the call's vertices; the tables stay sound, the queue above the distances, and a finite queue finite with every vertex the call returned finite |
| Bmssps.RelaxAndPrepend | sssp/src/commonMain/kotlin/BMSSP.kt:27-43 | relaxing the out-edges of ui and prepending `kSet + addBack` keeps the tables sound, the queue above the distances, and a queue of finite values finite |
| Bmssps.RunRounds | sssp/src/commonMain/kotlin/BMSSP.kt:16-45 | the loop keeps the tables sound and lowers entries only; the ghost rounds are its level l - 1 calls in order, each from non-empty sources, starting where the one before it ended and traced down its whole tree; U is duplicate-free and is exactly the union of their vertices, and lastBPrime is bPrime0 when no round runs and otherwise the last round's bound (`LoopTrace`); each vertex of U has a finite distance when every queued value starts finite |
| Bmssps.JoinBelow | sssp/src/commonMain/kotlin/BMSSP.kt:47-49 | `U.addAll(W.filter { d[it] < bPrime })` is duplicate-free, holds exactly U and the members of W below bPrime, and keeps every distance finite when U's and W's are |
| Bmssps.BaseFinite | sssp/src/commonMain/kotlin/BMSSP.kt:53-79 | with finite sources, every vertex the base case returns has a finite distance |
| Bmssps.QueueFiniteKept | sssp/src/commonMain/kotlin/BMSSP.kt:34-43 | inserts and the prepended batch put only finite values into a queue of finite values |
| Bmssps.Level | sssp/src/commonMain/kotlin/BMSSP.kt:10-50 | a call with l > 0, with ghost record call: tables stay sound; W holds S and otherwise vertices below B; bPrime is at most B, and is min(last round's bound, B) when a round ran; U holds exactly the rounds' vertices and the members of W below bPrime; each round is a level l - 1 call traced down its whole tree (`Recorded`); with finite sources every vertex of U has a finite distance |
| Bmssps.Bmssp | sssp/src/commonMain/kotlin/BMSSP.kt:5-51 | tables stay sound and only lowered; the ghost record call describes this call and its whole tree of rounds (`Recorded`): level 0 gives the base case's facts, a higher level those of Bmssps.Level at every call below it; at every level, with finite sources every vertex of U has a finite distance |
| Bmssps.BaseRecorded | sssp/src/commonMain/kotlin/BMSSP.kt:6-7 | a finished `baseCase` call is a recorded call at level 0 |
| Bmssps.LevelRecorded | sssp/src/commonMain/kotlin/BMSSP.kt:22-50 | a finished call above level 0 whose loop record holds (`LoopTrace`), whose bound is `min(lastBPrime, B)` and whose U is the rounds' vertices plus the members of W below the bound, is a recorded call at its level |
| Bmssps.RoundsExtend | sssp/src/commonMain/kotlin/BMSSP.kt:23-44 | a finished round appends its call to the loop's record: the rounds stay in order, U stays their union and lastBPrime the last one's bound |
| Bmssps.RoundVerticesHas | sssp/src/commonMain/kotlin/BMSSP.kt:26 | a vertex is among the rounds' vertices exactly when some round's call returned it |
| Bmssps.ReturnedSettled | sssp/src/commonMain/kotlin/BMSSP.kt:5-79 | every vertex a recorded call returns was settled by a base case or collected by a pivot search somewhere in its tree of calls |
| GraphTransform.ScanNeighbours | sssp/src/commonMain/kotlin/GraphTransform.kt:4-11 | `outNeighbors[x]` is x's out-targets and `inNeighbors[x]` its in-sources, each without duplicates |
| GraphTransform.ScanEdges | sssp/src/commonMain/kotlin/GraphTransform.kt:7-10 | scanning the edges of u extends both tables by exactly u's edges |
| GraphTransform.CreateCycle | sssp/src/commonMain/kotlin/GraphTransform.kt:32-46 | a vertex with neighbours gets one proxy per neighbour, a zero-weight cycle through them, and `rep[v]` its first proxy |
| GraphTransform.CreateProxies | sssp/src/commonMain/kotlin/GraphTransform.kt:18-47 | proxies are numbered consecutively by vertex; an isolated vertex gets one proxy without edges; `nodeId` names each (vertex, neighbour) proxy |
| GraphTransform.EdgeLookup | sssp/src/commonMain/kotlin/GraphTransform.kt:52-53 | for every original edge u -> v both `nodeId[(u, v)]` and `nodeId[(v, u)]` exist, so `!!` never fails |
| GraphTransform.TranslateEdges | sssp/src/commonMain/kotlin/GraphTransform.kt:50-56 | each edge u -> v of weight w becomes an edge from proxy (u, v) to proxy (v, u) of weight w, after the cycle edge |
| GraphTransform.TransformGraph | sssp/src/commonMain/kotlin/GraphTransform.kt:3-59 | the vertex count is the sum over vertices of max(1, neighbour count), `rep[v]` is v's first proxy, and each proxy's edges are its cycle edge then its translated edges |
| GraphTransformFacts.NeighbourListIsSet | sssp/src/commonMain/kotlin/GraphTransform.kt:13-16 | `allNeighbors[v]` is duplicate-free and is exactly the set of in- and out-neighbours |
| GraphTransformFacts.ProxyCount | sssp/src/commonMain/kotlin/GraphTransform.kt:58 | `idCounter` is Σ max(1, number of neighbours) |
| GraphTransformFacts.RepLayout | sssp/src/commonMain/kotlin/GraphTransform.kt:20-40 | `rep[0] = 0`, each vertex's proxies follow the previous vertex's, and the last ones end at the count |
| GraphTransformFacts.IsolatedVertex | sssp/src/commonMain/kotlin/GraphTransform.kt:25-30 | a vertex with no neighbours has exactly one proxy with no edges |
| GraphTransformFacts.ProxyCycleEdge | sssp/src/commonMain/kotlin/GraphTransform.kt:43-46 | each proxy's first edge goes with weight 0 to the next proxy of the cycle, the last one back to the first |
| GraphTransformFacts.CrossEdgePresent | sssp/src/commonMain/kotlin/GraphTransform.kt:50-56 | every original edge is present between the matching proxies with its weight |
| GraphTransformFacts.OnlyCrossEdges | sssp/src/commonMain/kotlin/GraphTransform.kt:42-56 | every edge after the cycle edge comes from an original edge |
| GraphTransformFacts.TransformedWellFormed | sssp/src/commonMain/kotlin/GraphTransform.kt:3-59 | every edge of the new graph targets one of its vertices |
| ShortestPaths.InitialTablesOk | sssp/src/commonMain/kotlin/SSSP.kt:354-356 | 0 at the root, `Inf` elsewhere and no predecessors are sound, consistent tables |
| ShortestPaths.SingleSourceShortestPaths | sssp/src/commonMain/kotlin/SSSP.kt:342-361 | n entries, 0 at s; for n <= 64 exact shortest distances; above that, the ghost table dist that BMSSP leaves is sound from `rep[s]` in the transformed graph, `result[v] == dist[rep[v]]` for every v, so each finite entry is the length of a walk from `rep[s]` to `rep[v]` |
| ShortestPaths.SolveFromRoot | sssp/src/commonMain/kotlin/SSSP.kt:354-358 | BMSSP from the initial tables leaves 0 at the root and a sound table |
| ShortestPaths.ReadThroughRep | sssp/src/commonMain/kotlin/SSSP.kt:360 | reading the table through `rep` keeps each finite entry a walk length to `rep[v]` |
| ShortestPaths.ShortestUnique | sssp/src/commonMain/kotlin/SSSP.kt:342-345 | two tables of exact shortest distances are equal |
| ShortestPaths.PotentialExact | sssp/src/commonMain/kotlin/SSSP.kt:342-345 | a table reached by walks that no edge can improve is the table of shortest distances |
| ShortestPaths.ChainDistances | sssp/src/commonTest/kotlin/SSSPTest.kt:20-34 | the chain 0 -> 1 -> 2 -> 3 with weights 1, 2, 3 has distances 0, 1, 3, 6 |
| ShortestPaths.StarDistances | sssp/src/commonTest/kotlin/SSSPTest.kt:53-67 | the star from 0 with weights 1, 2, 3 has distances 0, 1, 2, 3 |
| ShortestPaths.IsolatedDistances | sssp/src/commonTest/kotlin/SSSPTest.kt:36-51 | the weight-2 chain with a vertex 4 that no edge touches has distances 0, 2, 4, 6 and infinity at 4 |
| ShortestPaths.ChainExample | sssp/src/commonTest/kotlin/SSSPTest.kt:20-34 | `singleSourceShortestPaths` on the chain returns `[0, 1, 3, 6]` |
| ShortestPaths.StarExample | sssp/src/commonTest/kotlin/SSSPTest.kt:53-67 | `singleSourceShortestPaths` on the star returns `[0, 1, 2, 3]` |
| ShortestPaths.IsolatedExample | sssp/src/commonTest/kotlin/SSSPTest.kt:36-51 | `singleSourceShortestPaths` on the disconnected graph returns 0 at vertex 0 and infinity at vertex 4 |

## Left out

- Floating point is not modelled.
  - Distances are exact non-negative reals plus infinity, so there is no
    rounding and no NaN.
  - Negative weights are not modelled: the algorithm assumes they do not occur.
  - `ln`, `pow`, `floor` and `ceil` at SSSP.kt:347-350 are not modelled.
    The parameters k, t and l are inputs of
    `ShortestPaths.SingleSourceShortestPaths`.
- Bmssps.Bmssp: the main loop of BMSSP.kt:22-45 has no decreasing measure
  in the source. It runs at most `fuel` rounds, where `fuel` is an input.
  With enough fuel it is the source's loop; the model does not bound how
  much is enough.
- Bmssps.Bmssp: no end-to-end optimality is claimed for BMSSP. Each call is
  proved to keep the distance table sound and the predecessor table
  consistent. It is also proved to lower entries only and to return the
  sets and bounds described above. That U holds every vertex with true
  distance below bPrime, and that the returned distances are exact, is the
  paper's theorem and is not proved.
- ShortestPaths.SingleSourceShortestPaths: for n > 64 the result is proved
  sound in the transformed graph (each finite entry is a walk length
  there), not exact in the original graph.
- Bmssps.Bmssp: each write `pred[v] = u` is stated through the predecessor
  invariant: a recorded predecessor is an in-neighbour whose distance plus
  the edge weight is at most `d[v]`. That it is the very vertex relaxed
  from is not stated.
- Dijkstras.Dijkstra: its contract states the final table. That entries
  only decrease, and that stale pairs are skipped, are stated by the
  loop invariant and by Dijkstras.PopStale, not by the method's ensures.
- Bmssps.Pow2: `1 shl x` in Kotlin takes x modulo 32, and `k * (1 shl (l * t))`
  can overflow Int. The model uses the mathematical power of two and
  unbounded integers.
- Bmssps.Dfs: subtree sizes are unbounded integers. In Kotlin `sizes` is an
  IntArray, and a tight-edge graph that shares subtrees can overflow it.
- Bmssps.SelectPivots: the pivots are proved a duplicate-free subset of S,
  and all of S when k <= 1. The exact `dfs(it) >= k` filter is modelled in
  the body, but the contract does not restate it.
- Bmssps.FindPivots: the frontier bound `d < B` is stated for W; for the
  pivots P only membership in S is stated.
- EntrySorting.SortByValue: the stability of Kotlin's `sortBy` is not
  stated. Every property proved is about sorted permutations, so no result
  depends on the order of ties.
- Kotlin object identity is not modelled. Nodes are arena indices owned by
  their list or queue. Nodes never move between owners in the source, so
  aliasing is exact.
- PartialHeaps.PartialHeap.Split: it requires the block to hold more than M
  pairs, as its one caller at PartialHeap.kt:25 guarantees.
  `val median` at PartialHeap.kt:75 is computed and never used, so it is
  not modelled.
- BlockBatches.CreateBlocks: it cuts where the source's `takeWhile` cuts
  whenever that leaves both parts non-empty, which on the sorted lists
  `batchPrepend` passes is every case where the source terminates
  (BlockBatches.SortedCutAgrees). Only where the source's left part is the
  whole list, and its recursion does not end, does the model cut at the
  median index instead.
- Bmssps.AddBack: `kSet + addBack` at BMSSP.kt:43 is a union of pairs, as in
  Kotlin, so one key can arrive with two values. Pulled vertices are
  distinct, so `addBack` alone has no duplicate keys. A key that arrives
  twice is merged by the corrected `batchPrepend`, which keeps the smaller
  value.
- Bmssps.Round: `PullBound`, which ties each round's sources and bound to
  the queue it pulled from, is stated per round but not kept in the record
  of rounds that the loop, Level and Bmssp return.
- Bmssps.Level: when no round runs, bPrime is `min(bPrime0, B)` in the
  source; the record states it only as at most B, because bPrime0, the
  least pivot distance, is not part of the record.
- Bmssps.Bmssp: the same holds for bPrime above level 0 when no round runs.
- The copies of the other files inside SSSP.kt, at lines 14-340 and
  363-504, are modelled once, from their own files.

## Findings

| source | as written | input that shows it | evidently intended | confidence | as-written member | corrected member |
|---|---|---|---|---|---|---|
| sssp/src/commonMain/kotlin/PartialHeap.kt:99 | `split` inserts the right half at `blockIndex + 1` without renumbering the D1 blocks after it, so their nodes keep their old `blockIndex` | `PartialHeap(1, B)`, then `insert(1, 1.0)`, `insert(2, 2.0)`, `insert(3, 0.5)`: the third insert splits block 0, the block holding key 2 moves to index 2, its node still claims index 1, and `insert(2, 0.1)` then removes it from the wrong block | call `updateBlockIndices(D1, blockIndex + 2)` after the insertion | not executed | PartialHeaps.PartialHeap.SplitAsWritten, BlockSplits.SplitBreaksInv | PartialHeaps.PartialHeap.Split |
| sssp/src/commonMain/kotlin/PartialHeap.kt:159-163 | the fast path of `pull` removes gathered blocks from the front of D0 and D1 without renumbering the blocks left behind | M = 1, D1 = [block holding (1, 1.0), block holding (2, 2.0)]: `pull` gathers one pair and drops the first block, and the node of key 2 still claims index 1 | renumber both tiers after the removal | not executed | PartialHeaps.PartialHeap.TakeFrontAsWritten, BlockPulls.DropFrontBreaksInv | PartialHeaps.PartialHeap.TakeFront, PartialHeaps.DropFront |
| sssp/src/commonMain/kotlin/PartialHeap.kt:19-20 | after a `pull` that gathers fewer than M pairs, or a `removeNode` that empties the only D1 block, D1 and `upperBounds` are empty; `binarySearchUpperBounds` returns -1 (line 39) and `D1[-1]` throws | a new `PartialHeap(1, B)`, then `pull()` (it gathers D1's one empty block), then `insert(0, 1.0)`; or, without a pull, `PartialHeap(1, B)`, `insert(1, 1.0)`, `insert(1, 0.5)`: the second insert's `removeNode` (lines 48-55) drops the only D1 block with its bound | with no D1 block left, restart D1 and `upperBounds` as the constructor does | not executed | PartialHeaps.SearchAfterDrainingPull | PartialHeaps.PartialHeap.Place |
| sssp/src/commonMain/kotlin/PartialHeap.kt:131-136 | `createBlocks` cuts with `takeWhile { it.second <= median }`; when the median value is the largest, the left part is the whole list and the recursion does not end | M = 1 and any two pairs sorted by value, such as [(1, 1.0), (2, 2.0)] from `batchPrepend` | keep the `takeWhile` cut where both parts are non-empty, and cut at the median index otherwise, so both parts are shorter | not executed | BlockBatches.MedianCutStalls, BlockBatches.TwoEntriesStall | BlockBatches.CreateBlocks, BlockBatches.BlockCut |
| sssp/src/commonMain/kotlin/PartialHeap.kt:104-111 | the filter of `batchPrepend` compares each pair only with the stored node, so two pairs with the same key both pass and get two nodes, and `keyToNode` keeps the last | `batchPrepend({(7, 5.0), (7, 3.0)})` on a queue without key 7 (BMSSP.kt:37 adds one pair per successful relaxation of v) | keep one pair per key, the one with the smallest value | not executed | BlockBatches.FilterAsWritten, BlockBatches.FilterKeepsDuplicates, BlockBatches.DuplicateBreaksCore | PartialHeaps.PartialHeap.FilterPair, PartialHeaps.PartialHeap.BatchPrepend |
