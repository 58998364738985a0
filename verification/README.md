# Verified model of GenVM's core components

GenVM executes contracts that may make non-deterministic calls, keeps their storage, charges their fees and gives
them a vector index. This project models the parts whose correctness rests on an argument longer than one function
body and proves the properties they are written for. Every statement below holds for all inputs, all runs or all
interleavings unless its row says otherwise. `dafny verify dfyconfig.toml` checks the whole project.

## What is modelled

* **Cover-tree vector index** (`CoverLevels`, `CoverForest`, `CoverBound`, `CoverWalk`, `CoverDescent`, `CoverIndex`,
  `CoverRemoval`, `CoverEdges`, `CoverSearch`, `KNearest`, `VecDb`, `CoverExample`). The class `VecDB` keeps the arena, the free
  lists, the element map and the root as fields and updates them as the Python class does; a ghost map gives every node its
  proper ancestors. Distances are reals and any true metric whose values do not exceed `1.3^65535`, as the capped
  root level assumes; a level is chosen by what `math.log` is used for. The invariant `Valid` says that levels
  strictly fall, that elements and nodes correspond one to one, and that every descendant lies within the bound of
  `_max_descendant_dist`. In the middle of a removal a weaker state (`Repairing`) records which swapped nodes are still
  to be rechecked and which subtrees are detached, and `Edges` which children are covered. `Knn` returns the distances of a
  linear scan.
* **Calldata codec** (`Uleb`, `Calldata`, `CalldataDecoder`, `CalldataParser`, `CalldataEncoder`, `CalldataTheorems`,
  `CalldataFormat`). A value type, a recursive encoder and a recursive-descent decoder are the reference; the class `Parser`
  with its explicit frame stack and the class `Encoder` with its worklist are proved equal to them. `CalldataFormat` says
  which bytes are accepted and what they are, in numbers and in the order of byte strings.
* **Storage overlay** (`Lru`, `StorageRead`, `StorageWrite`, `StorageDelta`, `Storage`). The class `Storage` holds the override
  map, the 128-entry cache and a page quota. The cache crate is not part of the repository; it is modelled as a
  recency list in which a lookup refreshes and an insertion into a full list drops the least recent entry.
* **Fees and the VM tree** (`FeeBuckets`, `DataLimit`, `VmTree`, `VmEffects`). The bucket arithmetic and its loops, the interleavings
  of charges whose counters are updated after the lock is dropped, and an interpreter of nested CallContract, Sandbox
  and RunNondet calls; `VmEffects` says what each effect does by conditions on its input alone. A 256-bit addition that
  overflows stops the program, as `U256`'s `+` does.
* **Non-deterministic validator queue** (`NondetQueue`, `NondetSkips`, `NondetMarks`) and **memory limiter** (`MemLimiter`).
  State machines over the atomic steps of the source.
* **File descriptors** (`Vfs`) and the **GVM32 text codec** (`Gvm32`, `Gvm32Codec`, `Gvm32Spelling`).

`Wrappers` and `Collections` hold the option and result types and the few facts about sequences and sets that the others share.

## What the code does not do

Each of these is proved, with a concrete input, next to the exact condition under which the code does what is wanted.

* A storage read of 137 pages or more can push a cached page out of the cache that it still needs, and then leaves the
  caller's bytes for that page as they were. `ReadExact` gives the condition, `ShortReads` the span (136 pages) up to which it
  cannot happen; `SecondReadLoses` does two reads the second of which is wrong.
* A skipped non-deterministic call can precede the reported one: because receiving a task and looking at the recorded
  disagreement are two steps (`EarlierSkipped`), and because the deterministic VM can record one itself
  (`MarkSkipsEarlier`). `SkipsExactly` and `MarkSkipsExactly` say for which calls, verdicts and marks some run does so;
  `SkippedAfterReported` which order of steps rules it out for all of them.
* `path_open` takes a descriptor number before it looks anything up, and its failures leave the function at once rather
  than by the closure that would free the number, so the number is neither open nor free afterwards (`NumberLost`).
  `AllAccounted` gives the condition for whole runs.
* A limiter's own counter can wrap around while one thread gives memory back and another takes it (`CounterWraps`); the rest
  of the giving back undoes it. It is right exactly while what it stands for fits 32 bits (`CounterExact`). The shared counter
  never wraps (`RunSafe`).
* Removing an element of the cover tree can leave a child outside its parent's covering distance (`RemovalUncovers`), although
  the comment at `_max_descendant_dist` derives the bound from that distance. `RemoveFromTree` says exactly when it does; the
  bound itself is always kept.
* The two GVM32 decoders differ on texts outside ASCII (`KelvinSign`) exactly when some character there lower-cases to one with
  a digit (`SameDecoders`).

## Model

| member | source | states |
|---|---|---|
| VecDb.VecDB.Insert | runners/genlayer-py-std/src-emb/genlayer_embeddings/vecdb.py:233-248 | the index stays valid, a fresh id becomes live with this vector and value, every other live element keeps its own, and an index in which every child is covered stays so |
| VecDb.VecDB.Remove | runners/genlayer-py-std/src-emb/genlayer_embeddings/vecdb.py:134-139 | the index stays valid and exactly this id stops being live; a second removal changes nothing; a covered index stays covered exactly when the check below holds |
| VecDb.VecDB.Knn | runners/genlayer-py-std/src-emb/genlayer_embeddings/vecdb.py:451-508 | min(k, n) different live elements in order of distance, each with the distance from its own vector to the one asked for, no live element left out nearer than any of them; the distances are those of a scan of all live elements |
| VecDb.VecDB.InsertIntoTree | runners/genlayer-py-std/src-emb/genlayer_embeddings/vecdb.py:260-330 | the invariant is kept, also between the steps of a removal; the new node is alone, above a root that did not cover it, or a leaf that all its ancestors cover and that its level separates from them; every other node keeps its element and level, and other trees are untouched |
| VecDb.VecDB.RemoveFromTree | runners/genlayer-py-std/src-emb/genlayer_embeddings/vecdb.py:332-406 | one settled tree again, holding exactly the other elements; if every child was covered before, every child is covered afterwards if and only if the element's node has no children or no parent, or its parent covers the element of its nearest child |
| VecDb.VecDB.SwapDown | runners/genlayer-py-std/src-emb/genlayer_embeddings/vecdb.py:353-379 | from each node of one line to its nearest child, the first of several, down to a leaf, each node gets the element of the next and nothing else changes; only the line's nodes lose their bound and only the leaf its place |
| VecDb.VecDB.DropLeaf | runners/genlayer-py-std/src-emb/genlayer_embeddings/vecdb.py:380-391 | the leaf is cut from its parent and freed; the rest is one tree with only the line to be rechecked |
| VecDb.VecDB.DropUncovered | runners/genlayer-py-std/src-emb/genlayer_embeddings/vecdb.py:393-406 | the lowest swapped node keeps exactly the children it covers and bounds its descendants again; those returned are exactly the others, now roots of trees of their own |
| VecDb.VecDB.ReinsertSubtree | runners/genlayer-py-std/src-emb/genlayer_embeddings/vecdb.py:408-423 | one detached tree's elements are all back in the index, the other detached trees and the line still as they were |
| VecDb.VecDB.CollectSubtree | runners/genlayer-py-std/src-emb/genlayer_embeddings/vecdb.py:411-421 | exactly the subtree's nodes are freed and exactly its elements collected, each once |
| VecDb.VecDB.AllocateNode | runners/genlayer-py-std/src-emb/genlayer_embeddings/vecdb.py:218-227 | the node is at a slot not in use, all used slots are unchanged, and the free list is again exactly the unused slots |
| VecDb.ChooseLeaf | runners/genlayer-py-std/src-emb/genlayer_embeddings/vecdb.py:289-324 | the parent is the nearest of the deepest nodes that cover the element with all above them, the smallest distance is the least to any such node, and the level is the capped and clamped one that separates the element from all of them |
| VecDb.ChoosePlace | runners/genlayer-py-std/src-emb/genlayer_embeddings/vecdb.py:271-324 | above the root exactly when the root does not cover the element, at the least level that reaches it, and otherwise the leaf's place |
| VecDb.NeededLevel | runners/genlayer-py-std/src-emb/genlayer_embeddings/vecdb.py:275-279 | the least level above the root's that reaches the old root, within the cap |
| VecDb.DescendToParent | runners/genlayer-py-std/src-emb/genlayer_embeddings/vecdb.py:289-320 | of all nodes that cover the element with every node above them: the nearest of the deepest, and the least distance to any |
| VecDb.NearestCandidate | runners/genlayer-py-std/src-emb/genlayer_embeddings/vecdb.py:314-320 | the loop finds the candidate that `NearestOf` is |
| CoverDescent.NearestIsFirst | runners/genlayer-py-std/src-emb/genlayer_embeddings/vecdb.py:314-320 | that candidate is the first of the nearest |
| VecDb.Search | runners/genlayer-py-std/src-emb/genlayer_embeddings/vecdb.py:458-503 | the pruned depth-first search returns min(k, n) elements of the index with their distances to the vector asked for, and no other is nearer |
| CoverLevels.LevelForDist | runners/genlayer-py-std/src-emb/genlayer_embeddings/vecdb.py:250-258 | the largest level whose power is below the distance, and the sentinel for coincident points |
| CoverLevels.RadiusCovers | runners/genlayer-py-std/src-emb/genlayer_embeddings/vecdb.py:443-449 | one covering step and everything below it stay within the bound on descendants |
| CoverBound.AddLeafBound | runners/genlayer-py-std/src-emb/genlayer_embeddings/vecdb.py:322-330 | a leaf that every ancestor covers keeps all bounds, also while some nodes wait to be rechecked |
| CoverBound.NewRootBound | runners/genlayer-py-std/src-emb/genlayer_embeddings/vecdb.py:271-287 | a new root that reaches the old one bounds everything below it |
| CoverBound.SwapBound | runners/genlayer-py-std/src-emb/genlayer_embeddings/vecdb.py:369-376 | moving a child's element up breaks the bound of that one node at most |
| CoverBound.DetachBound | runners/genlayer-py-std/src-emb/genlayer_embeddings/vecdb.py:393-404 | cutting children off a node breaks no bound and changes nothing above it |
| CoverBound.SettleBound | runners/genlayer-py-std/src-emb/genlayer_embeddings/vecdb.py:391-406 | a rechecked node bounds its descendants again |
| CoverBound.TopSettled | runners/genlayer-py-std/src-emb/genlayer_embeddings/vecdb.py:391-406 | with all swapped nodes rechecked every node bounds its descendants directly |
| CoverBound.DropTreeBound | runners/genlayer-py-std/src-emb/genlayer_embeddings/vecdb.py:408-421 | taking a detached tree out of use breaks no bound in the others |
| CoverDescent.Descend | runners/genlayer-py-std/src-emb/genlayer_embeddings/vecdb.py:292-312 | one round of the descent goes strictly down and stays on nodes that, with all above them, cover the element |
| CoverDescent.NextRound | runners/genlayer-py-std/src-emb/genlayer_embeddings/vecdb.py:292-312 | after each round the candidates are exactly the nodes met at that depth, and the smallest distance is the least to any met so far |
| CoverDescent.LastRound | runners/genlayer-py-std/src-emb/genlayer_embeddings/vecdb.py:311-320 | when no candidate is left every such node has been met |
| CoverIndex.AttachInserts | runners/genlayer-py-std/src-emb/genlayer_embeddings/vecdb.py:260-330 | attaching a node at a chosen place is an insertion that keeps the invariant |
| CoverRemoval.DescentStep | runners/genlayer-py-std/src-emb/genlayer_embeddings/vecdb.py:356-379 | one swap keeps everything but the swapped node's bound and moves the hole to the child |
| CoverRemoval.LeafGone | runners/genlayer-py-std/src-emb/genlayer_embeddings/vecdb.py:380-391 | without the leaf the index is one tree, one to one, with only the line to be rechecked |
| CoverRemoval.Recheck | runners/genlayer-py-std/src-emb/genlayer_embeddings/vecdb.py:393-406 | rechecking the lowest node of the line shortens it by that node and detaches exactly the trees listed |
| CoverRemoval.TreeTaken | runners/genlayer-py-std/src-emb/genlayer_embeddings/vecdb.py:408-421 | a detached tree taken out leaves the rest in repair, and the collected elements are exactly those missing |
| CoverRemoval.RepairingKept | runners/genlayer-py-std/src-emb/genlayer_embeddings/vecdb.py:422-423 | an insertion disturbs neither the line nor the detached trees |
| CoverWalk.WalkStep | runners/genlayer-py-std/src-emb/genlayer_embeddings/vecdb.py:411-421 | popping a node and pushing some of its children keeps the walk: nothing is seen twice, nothing is forgotten but below what was cut |
| CoverWalk.WalkDone | runners/genlayer-py-std/src-emb/genlayer_embeddings/vecdb.py:475-503 | when the stack is empty every node was seen or lies under one that was left out |
| CoverSearch.PruneChild | runners/genlayer-py-std/src-emb/genlayer_embeddings/vecdb.py:487-496 | nothing below a pruned child is nearer than the farthest candidate kept |
| CoverSearch.SearchDone | runners/genlayer-py-std/src-emb/genlayer_embeddings/vecdb.py:475-503 | the candidates kept are the best of the whole index |
| CoverSearch.WorthVisiting | runners/genlayer-py-std/src-emb/genlayer_embeddings/vecdb.py:486-503 | exactly the children that the bound does not rule out, once each, farthest first |
| KNearest.NearestUnique | runners/genlayer-py-std/src-emb/genlayer_embeddings/vecdb.py:505-508 | two sorted answers to the same query have the same distances |
| KNearest.ScanIsNearest | runners/genlayer-py-std/src-emb/genlayer_embeddings/vecdb.py:451-456 | the linear scan is such an answer |
| KNearest.OfferBest | runners/genlayer-py-std/src-emb/genlayer_embeddings/vecdb.py:479-484 | offering an element to the bounded heap keeps the best of all offered, and the farthest kept never gets farther |
| KNearest.ResultsAreScan | runners/genlayer-py-std/src-emb/genlayer_embeddings/vecdb.py:505-508 | the sorted contents of the heap have the linear scan's distances |
| CoverSearch.NearestMeans | runners/genlayer-py-std/src-emb/genlayer_embeddings/vecdb.py:451-508 | an answer is a number of different live elements with the distances of their vectors, and what it leaves out is no nearer |
| CoverEdges.SettledMeans | runners/genlayer-py-std/src-emb/genlayer_embeddings/vecdb.py:443-449 | in a settled index levels strictly fall, the vectors of a node and of each descendant are within base^(L+1)/(base-1), nodes and elements correspond, and all is under the root |
| CoverEdges.InsertCovers | runners/genlayer-py-std/src-emb/genlayer_embeddings/vecdb.py:260-330 | insertion keeps every child within its parent's covering distance |
| CoverEdges.MovedEdges | runners/genlayer-py-std/src-emb/genlayer_embeddings/vecdb.py:353-379 | after the elements moved up the uncovered edges are below the line, and the one above it exactly when its upper end does not cover the nearest child's element |
| CoverEdges.RecheckEdges | runners/genlayer-py-std/src-emb/genlayer_embeddings/vecdb.py:391-406 | rechecking the lowest node of the line covers its edges and leaves the edge above the line as it was |
| CoverEdges.InsertedEdges | runners/genlayer-py-std/src-emb/genlayer_embeddings/vecdb.py:422-423 | a reinserted element's edges are covered, and no other edge changes |
| CoverEdges.EdgesDone | runners/genlayer-py-std/src-emb/genlayer_embeddings/vecdb.py:391-406 | at the end every edge is covered if and only if the one above the line is |
| CoverExample.CoveringLost | runners/genlayer-py-std/src-emb/genlayer_embeddings/vecdb.py:260-406 | three inserted points: the index is settled and covered, and the check before removing the first fails |
| CoverExample.RemovalUncovers | runners/genlayer-py-std/src-emb/genlayer_embeddings/vecdb.py:332-406 | removing it leaves a child uncovered |
| Uleb.ReadWrite | executor/crates/calldata/src/encoder.rs:4-66 | reading a written number gives it back unless its digits overflow the reader's 64-bit offset |
| Uleb.ReadCanonical | executor/crates/calldata/src/bin.rs:74-101 | every accepted spelling of a number is the one that is written |
| CalldataTheorems.RoundTrip | executor/crates/calldata/src/bin.rs:321-334 | decoding an encoded value gives it back exactly when nesting, sizes and digits fit, and fails otherwise |
| CalldataTheorems.Canonical | executor/crates/calldata/src/bin.rs:126-302 | accepted bytes are the encoding of the value they yield, which is well formed and fits |
| CalldataTheorems.EarlyAgrees | executor/crates/calldata/src/bin.rs:118-302 | the early length rejections refuse nothing that the plain grammar accepts, and change no value |
| CalldataTheorems.ValueRead | executor/crates/calldata/src/bin.rs:126-302 | a value's encoding is read back in front of any further input, or refused when it does not fit |
| CalldataTheorems.ValueCanonical | executor/crates/calldata/src/bin.rs:126-302 | whatever is read is spelled canonically and leaves the rest untouched |
| CalldataFormat.LessIs | executor/crates/calldata/src/bin.rs:284-290 | the order that map keys must have is that of byte strings: a proper prefix first, otherwise by the first byte that differs |
| CalldataFormat.AcceptedExactly | executor/crates/calldata/src/bin.rs:126-334 | bytes are accepted as a value if and only if they are its encoding, it fits and it is sound: addresses of 20 bytes, strings UTF-8, map keys ascending in that order |
| CalldataFormat.WrittenDigits | executor/crates/calldata/src/encoder.rs:4-24 | a number is written in base 128, least significant first, bit 7 set on all digits but the last, and no zero at the end |
| CalldataFormat.SpelledOnce | executor/crates/calldata/src/bin.rs:74-101 | there is one such spelling |
| CalldataFormat.WireFormat | executor/crates/calldata/src/encoder.rs:26-79 | a value is one byte, or a number spelled so, its low three bits the type and the rest the magnitude or the size, and then the contents |
| CalldataFormat.ContainerFormat | executor/crates/calldata/src/bin.rs:338-378 | elements follow each other, and each entry is its key's size spelled so, the key and the value |
| CalldataFormat.HeaderRefused | executor/crates/calldata/src/bin.rs:126-302 | a header that no value has, or a size or depth that is not allowed, is refused with its own error |
| CalldataFormat.KeyRefused | executor/crates/calldata/src/bin.rs:280-292 | a key that does not come after the one before it is refused, naming both |
| CalldataFormat.TwoKeys | executor/crates/calldata/src/bin.rs:280-302 | the seven bytes of a map from `a` and `b` to null are accepted |
| CalldataParser.Parser.FetchUleb | executor/crates/calldata/src/bin.rs:74-101 | the shifting loop reads what the recursive reader reads and advances as far |
| CalldataParser.Parser.FetchVal | executor/crates/calldata/src/bin.rs:126-302 | the loop over an explicit frame stack ends and agrees with the recursive-descent decoder in value, rest and error |
| CalldataParser.Decode | executor/crates/calldata/src/bin.rs:316-334 | accepts exactly the encodings of values that nest no deeper than allowed, whose sizes and digits fit, whose strings are UTF-8 and whose map keys ascend in the order of byte strings, each as its value; refuses all else with the error of the recursive decoder |
| CalldataEncoder.Encoder.WriteUleb | executor/crates/calldata/src/encoder.rs:4-24 | the loop appends the number's digits |
| CalldataEncoder.Encoder.EncodeTo | executor/crates/calldata/src/bin.rs:338-378 | draining the worklist appends what structural recursion writes |
| CalldataEncoder.Encode | executor/crates/calldata/src/bin.rs:398-407 | the bytes of the recursive encoder |
| Storage.Storage.Read | executor/src/rt/vm/storage.rs:172-280 | the cache stays coherent with the host, and each byte is the overriding page's or else the host's, up to 136 pages outright and beyond but for pages that the read pushed out of the cache, which keep the buffer's bytes; afterwards only pages cached before and whole pages of the range are cached, and all of these if they fit |
| StorageRead.ReadExact | executor/src/rt/vm/storage.rs:229-280 | a read is right for every buffer if and only if it does not overflow the cache while a page of the known suffix is still needed from it |
| StorageRead.ShortReads | executor/src/rt/vm/storage.rs:190-280 | no read of up to 136 pages overflows |
| StorageRead.ReadMeans | executor/src/rt/vm/storage.rs:172-280 | so such a read yields for each address the byte of the page that overrides it, or the host's |
| StorageRead.LongReadLoses | executor/src/rt/vm/storage.rs:229-269 | reading 137 pages of which only the last is cached overflows |
| Storage.SecondReadLoses | executor/src/rt/vm/storage.rs:172-280 | after reading page 136, reading pages 0 to 136 leaves the buffer's byte where page 136 belongs |
| StorageRead.SweepHit | executor/src/rt/vm/storage.rs:236-255 | a cached page found before the suffix comes to the front and pushes nothing out |
| StorageRead.SweepInsert | executor/src/rt/vm/storage.rs:256-269 | a page inserted directly into a full cache pushes out a page no longer needed, and the last needed one when there is no other |
| StorageRead.SweepEnd | executor/src/rt/vm/storage.rs:236-269 | when the suffix is reached exactly the pages counted as lost are gone |
| StorageRead.CutStep | executor/src/rt/vm/storage.rs:208-216 | cutting the known suffix leaves its cached pages in front of the cache, in order |
| Lru.TouchKeys | executor/src/rt/vm/storage.rs:193-195 | a lookup moves the key to the front and changes nothing else |
| Lru.PutKeys | executor/src/rt/vm/storage.rs:267-277 | an insertion puts the key in front and drops at most the least recent one |
| Storage.Storage.Write | executor/src/rt/vm/storage.rs:315-405 | the pages newly overridden are exactly those that some byte of the range lies on; it succeeds exactly when the quota pays for those not overridden before, and they hold the data inside the range and what was there outside it; otherwise the quota is used up, on as many of them |
| StorageWrite.WriteMeans | executor/src/rt/vm/storage.rs:315-405 | the pages hit, the merged bytes and the charge by addresses alone, at any alignment |
| StorageWrite.WriteExact | executor/src/rt/vm/storage.rs:315-405 | a completed write changes the flat view on exactly its range, to the data |
| StorageWrite.WrittenFlat | executor/src/rt/vm/storage.rs:315-405 | a write that stopped early changes only bytes of its range, to the data |
| StorageWrite.ChargedPages | executor/src/rt/vm/storage.rs:105-112 | what is charged is the number of pages that the override map gains |
| StorageWrite.PatchIsNew | executor/src/rt/vm/storage.rs:296-309 | a partial page merged into the existing one is the page of the whole write, at any alignment |
| Storage.Storage.WritePage | executor/src/rt/vm/storage.rs:105-112 | a page is charged when it is overridden for the first time, and refused when the quota is spent |
| Storage.Storage.MakeDelta | executor/src/rt/vm/storage.rs:145-164 | the runs are exactly the override map, in order, no two adjacent; the last run that is extended always exists |
| StorageDelta.ExactUnique | executor/src/rt/vm/storage.rs:145-164 | there is one such list of runs |
| StorageDelta.AppliedIsFlat | executor/src/rt/vm/storage.rs:145-164 | applying the runs to the host's storage gives the flat view |
| StorageDelta.ExtendRun | executor/src/rt/vm/storage.rs:149-158 | when the previous page is overridden too it is the last of the last run |
| FeeBuckets.RawExact | executor/src/rt/fees.rs:345-392 | the quadratic check passes exactly when for every bucket number the sum of all costs aimed at it fits what remains |
| FeeBuckets.RawOverflows | executor/src/rt/fees.rs:345-379 | the check overflows exactly at the first entry that does not fit, when it alone would fit and with the earlier ones exceeds 256 bits |
| FeeBuckets.GatheredFits | executor/src/rt/fees.rs:519-552 | the check of the gathered deductions is the same check |
| DataLimit.DataLimit.ConsumeBucketRaw | executor/src/rt/fees.rs:345-392 | all or nothing: charged exactly when everything fits, stopped exactly when at the first entry that does not fit the cumulative cost exceeds 256 bits, refused otherwise; each bucket then less by what is aimed at it, each counter more by its cost, and no total is lost |
| DataLimit.DataLimit.ConsumeMessageFee | executor/src/rt/fees.rs:513-565 | the same for two categories at once, stopped exactly when the costs of one bucket overflow 256 bits |
| DataLimit.DataLimit.ConsumeInitial | executor/src/rt/fees.rs:420-442 | storage, receipts, non-deterministic output, message fees and events are charged in this order up to the first category that cannot pay, which is named with the cause; the ones before it stay charged |
| DataLimit.DataLimit.Consumed | executor/src/rt/fees.rs:398-404 | the sum of a category's counters, or nothing when it exceeds 256 bits |
| DataLimit.CheckRaw | executor/src/rt/fees.rs:345-379 | the nested loops decide as the recursive check does |
| DataLimit.Gather | executor/src/rt/fees.rs:516-531 | the map holds each bucket's cumulative cost, and the addition overflows exactly when some sum does |
| DataLimit.CounterFits | executor/src/rt/fees.rs:380-392 | a counter that grows by a cost its bucket can pay stays within 256 bits |
| DataLimit.StepBalanced | executor/src/rt/fees.rs:345-392 | every step of every task keeps what remains, what is counted and what is still to be counted equal to what there was, for each bucket |
| DataLimit.RunBalanced | executor/src/rt/fees.rs:513-565 | so does every run of interleaved charges and counter updates |
| DataLimit.StartBalanced | executor/src/rt/fees.rs:195-206 | nothing counted and nothing pending: the books balance at the start of every run |
| DataLimit.UpdateFits | executor/src/rt/fees.rs:554-560 | a counter update after the lock is dropped never overflows |
| VmTree.TransactionBooks | executor/src/wasi/genlayer_sdk.rs:593-1119 | for a transaction that ends without an internal error, consumption since the start charges is the sum of the fees in the surfaced emissions, budgets fell by the message fees, and the promised value is the emitted value and within the contract's balance |
| VmTree.TreeLedger | executor/src/wasi/genlayer_sdk.rs:1700-1982 | the same for every subtree of nested calls, and no subtraction from a balance underflows |
| VmTree.ChildEmpty | executor/src/wasi/genlayer_sdk.rs:247-272 | a CallContract child always passes `check_empty` |
| VmTree.QuietExec | executor/src/wasi/genlayer_sdk.rs:736-800 | a VM without permission to send or write, or a non-deterministic one, leaves its accumulator alone with everything below it |
| VmTree.SendLedger | executor/src/wasi/genlayer_sdk.rs:594-682 | one message keeps the books, never saturates the promised value and never promises more than the balance |
| VmTree.NondetLedger | executor/src/wasi/genlayer_sdk.rs:1694-1905 | a RunNondet call changes nothing but the non-deterministic output charge |
| VmTree.ChargeOneTakes | executor/src/rt/fees.rs:345-392 | a charge of one category succeeds exactly when it fits, takes what it costs and otherwise takes nothing |
| VmTree.ChargeMessageTakes | executor/src/wasi/genlayer_sdk.rs:38-148 | the tree's charges take from the buckets what the bucket specification says |
| VmTree.CheckedSumLe | executor/src/wasi/genlayer_sdk.rs:543-559 | true exactly when the sum does not exceed the bound, without wrapping |
| VmEffects.SendExact | executor/src/wasi/genlayer_sdk.rs:593-682 | a message that is not permitted or not owned changes nothing; one that no node matches ends the contract; otherwise the first node that matches pays: exactly one emission with its value and fees, that node's budget and the buckets lower by them, all else unchanged, or the contract ends with nothing taken |
| VmEffects.EventExact | executor/src/wasi/genlayer_sdk.rs:822-900 | an event is added and charged exactly when it is permitted, computed and affordable |
| VmEffects.StoreExact | executor/src/rt/vm/storage.rs:105-112 | a new page is charged as storage exactly when it is affordable, and to nothing else |
| VmEffects.NondetExact | executor/src/wasi/genlayer_sdk.rs:1694-1905 | the child runs without permissions on an empty accumulator, then its output is charged exactly when it is affordable |
| VmEffects.CallExact | executor/src/wasi/genlayer_sdk.rs:736-820 | the child runs on the callee without writing or sending, and its caller goes on with its own accumulator exactly when the child ended |
| VmEffects.RunsInOrder | executor/src/rt/mod.rs:66-107 | a VM runs its effects in order, each on what the one before left, up to the first that does not go on, and its caller gets what was reached, also when that one ended it |
| VmEffects.NoSendBelow | executor/src/wasi/genlayer_sdk.rs:593-611 | below a VM that may not send, to any depth, no message is added, no budget falls and no value is promised |
| VmEffects.SandboxSendsNothing | executor/src/wasi/genlayer_sdk.rs:1952-1958 | so it is below a sandbox that forbids sending, whatever the VM around it may do |
| VmEffects.NoWriteBelow | executor/src/wasi/genlayer_sdk.rs:822-840 | below a VM that may not write, to any depth, no event is added and neither events nor storage are charged |
| VmEffects.SandboxWritesNothing | executor/src/wasi/genlayer_sdk.rs:1952-1958 | so it is below a sandbox that forbids writing |
| VmEffects.NoNondetBelow | executor/src/wasi/genlayer_sdk.rs:1694-1710 | below a VM that may not spawn non-deterministic calls, to any depth, no output of one is charged |
| VmEffects.SandboxPasses | executor/src/wasi/genlayer_sdk.rs:1931-1978 | in a sandbox that allows it a message or an event has the effect it would have outside |
| NondetQueue.RunInv | executor/src/rt/supervisor/mod.rs:518-591 | in every state of every run the countdown is the submitter's token and one per outstanding task, every call is in one place, and the recorded number is the least recorded or marked |
| NondetQueue.StepInv | executor/src/rt/supervisor/mod.rs:140-194 | every step of the submitter and both workers keeps that |
| NondetQueue.AllDone | executor/src/rt/supervisor/mod.rs:140-167 | when the wait is over every submitted call was run or skipped, once, and the countdown is zero |
| NondetQueue.Report | executor/src/rt/supervisor/mod.rs:165-176 | an error is returned exactly when a call failed; otherwise the number returned is the least of those that ran and disagreed or were marked, and none exactly when there are none |
| NondetQueue.SkippedAfterReported | executor/src/rt/supervisor/mod.rs:542-553 | no skipped call precedes the reported one when receiving and looking are not interrupted and nothing is marked |
| NondetQueue.EarlierSkipped | executor/src/rt/supervisor/mod.rs:531-553 | without the first condition it can |
| NondetQueue.MarkSkipsEarlier | executor/src/rt/supervisor/mod.rs:216-222 | without the second it can |
| NondetSkips.SkipsExactly | executor/src/rt/supervisor/mod.rs:140-194 | without marks some run skips a call before the one it reports if and only if some call disagrees, an earlier one has only agreeing calls before it, and all calls after that one fit the channel |
| NondetMarks.MarkSkipsExactly | executor/src/rt/supervisor/mod.rs:216-222 | with marks some run does if and only if a call before the first mark has only agreeing calls before it and the calls between it and the mark fit the channel |
| NondetSkips.StepLagging | executor/src/rt/supervisor/mod.rs:531-553 | a call received and not looked at is the latest received or was overtaken, and so was every skipped call that precedes the recorded one |
| NondetMarks.StepLate | executor/src/rt/supervisor/mod.rs:216-222 | the same with marks |
| NondetQueue.NoDeadlock | executor/src/rt/supervisor/mod.rs:518-591 | no reachable state is stuck before the wait is over |
| NondetQueue.RunsEnd | executor/src/rt/supervisor/mod.rs:140-167 | no run is longer than a bound given by the number of calls |
| NondetQueue.StepCounted | executor/crates/common/src/sync.rs:407-436 | every step keeps the countdown exact |
| MemLimiter.RunConserved | executor/src/rt/memlimiter.rs:90-134 | in every interleaving what remains, what the limiters hold and what is being taken add up to 2^32-1 |
| MemLimiter.StepConserved | executor/src/rt/memlimiter.rs:97-134 | every atomic step of every thread keeps that |
| MemLimiter.RunSafe | executor/src/rt/memlimiter.rs:21-42 | the release assertion never fires when limiters give back what they hold, and no completed consume left less than the recorded minimum |
| MemLimiter.AssertionExact | executor/src/rt/memlimiter.rs:34-41 | whatever is given back, the assertion holds exactly when it is no more than all limiters hold or are taking |
| MemLimiter.RefusedExact | executor/src/rt/memlimiter.rs:97-112 | in every run a refused consume asked for more than remained at some moment since it began |
| MemLimiter.CounterExact | executor/src/rt/memlimiter.rs:34-72 | in every run a limiter's counter is what it holds and is giving back if and only if that fits 32 bits |
| MemLimiter.CounterWraps | executor/src/rt/memlimiter.rs:34-72 | a run in which the counter wraps around to 0 and is right again at the end |
| MemLimiter.QuietConserved | executor/src/rt/memlimiter.rs:6-19 | with all threads idle the atomic counters themselves add up |
| MemLimiter.DropConserved | executor/src/rt/memlimiter.rs:21-31 | dropping an idle limiter gives back exactly what it holds |
| Vfs.VFS.AllocFd | executor/src/wasi/vfs.rs:98-117 | handed out exactly when there is room and a free number or memory for a new one, each error with its exact cause; the number is neither open nor free, and on errors nothing changes |
| Vfs.VFS.PopFd | executor/src/wasi/vfs.rs:124-139 | closing gives back the file's memory and frees the number; a number that is not open changes nothing |
| Vfs.LastFreedFirst | executor/src/wasi/vfs.rs:98-139 | after closing two descriptors the next two files get their numbers, the one closed last first |
| Vfs.NewAfterLast | executor/src/wasi/vfs.rs:98-117 | with none free the number is one more than the last new one, and is paid for |
| Vfs.VFS.PlaceContent | executor/src/wasi/vfs.rs:141-157 | succeeds exactly when memory for the content and then a number can be had, each error with its exact cause; on every failure nothing has changed |
| Vfs.VFS.PathOpen | executor/src/wasi/preview1.rs:1053-1106 | opens exactly when a number could be had, the directory is one and something was found; a number is lost exactly when it was had and one of the other two fails |
| Vfs.AllAccounted | executor/src/wasi/vfs.rs:98-139 | in every run the open and the free numbers are exactly 0 to the last one handed out if and only if no open of the run got a number and then found no directory or nothing at the path |
| Vfs.RunCounted | executor/src/wasi/vfs.rs:64-157 | in every run open and free numbers are distinct, one fewer than were handed out for each such open, and the memory left, the open files and the numbers beyond four add up to the memory at the start |
| Vfs.StepSound | executor/src/wasi/vfs.rs:98-157 | every operation keeps open and free numbers apart and the memory accounted for, on every failure path too, and hands out only numbers that are not open |
| Vfs.NumberLost | executor/src/wasi/preview1.rs:1070-1106 | a new VM opens a path that leads nowhere: number 4 is neither open nor free |
| Vfs.VFS.New | executor/src/wasi/vfs.rs:64-95 | standard input is charged, or refused when it does not fit |
| Gvm32.RoundTrip | executor/crates/sdk-rs/src/gvm32.rs:9-92 | decoding an encoded text gives the bytes back |
| Gvm32.Canonical | executor/crates/sdk-rs/src/gvm32.rs:64-92 | a text decodes to these bytes exactly when, without dashes and folded, it is their encoding followed by at most one zero where one fits |
| Gvm32.HashesUnique | executor/crates/sdk-rs/src/gvm32.rs:1-8 | 32 bytes have one spelling but for dashes, case and aliases |
| Gvm32.DecodeCanonical | executor/crates/sdk-rs/src/gvm32.rs:71-92 | the same on digits |
| Gvm32.EncodeNumber | executor/crates/sdk-rs/src/gvm32.rs:1-29 | the digits are the bytes as one big-endian number, shifted up by the spare bits |
| Gvm32Spelling.ReadsExactly | executor/crates/sdk-rs/src/gvm32.rs:9-38 | a character reads as a digit if and only if it is its letter, that letter's capital, `o` or `O` for 0, or `i`, `I`, `l` or `L` for 1 |
| Gvm32Spelling.PythonReadsExactly | runners/genlayer-py-std/src/genlayer/gvm32.py:40-56 | the same on ASCII for the other reader |
| Gvm32Spelling.Respelled | executor/crates/sdk-rs/src/gvm32.rs:64-92 | texts that differ only in such spellings decode to the same |
| Gvm32Spelling.DashIgnored | executor/crates/sdk-rs/src/gvm32.rs:64-92 | a dash anywhere makes no difference |
| Gvm32Spelling.AliasExample | executor/crates/sdk-rs/src/gvm32.rs:30-43 | `ow`, `0W` and `O-w` are the byte 7 |
| Gvm32Codec.EncodeMasked | executor/crates/sdk-rs/src/gvm32.rs:12-29 | the masked 32-bit loop yields the encoding |
| Gvm32Codec.EncodeUnbounded | runners/genlayer-py-std/src/genlayer/gvm32.py:22-42 | the unbounded loop yields the same encoding |
| Gvm32Codec.DecodeMasked | executor/crates/sdk-rs/src/gvm32.rs:71-92 | the masked loop decodes as specified, with the first bad character or the padding as the error |
| Gvm32Codec.DecodeUnbounded | runners/genlayer-py-std/src/genlayer/gvm32.py:55-78 | the unbounded loop decodes a text as the text of its characters' digits, whatever `str.lower` does outside ASCII |
| Gvm32.SameDecoders | runners/genlayer-py-std/src/genlayer/gvm32.py:40-78 | the two decoders accept the same texts with the same bytes if and only if no character outside ASCII lower-cases to one with a digit |
| Gvm32.KelvinSign | runners/genlayer-py-std/src/genlayer/gvm32.py:40-78 | the Kelvin sign, which lower-cases to `k`, is accepted by one and not by the other |

## Left out

- Floating point in the vector index: distances are reals, and `math.log` is replaced by the level it is meant to find; rounding and NaN or infinite distances are not modelled.
- `_find_node_by_id`, the fallback for data without an element map: under the invariant an element not in the map is at no node, so removing it does nothing.
- The `_max_level` and `_min_level` fields of the vector index, which nothing reads, and the 32-bit width of its indices.
- Iteration order of the free lists: any free slot may be reused.
- The heap's internal layout in `knn`: a heap is its contents in order, since only its root is looked at.
- UTF-8 validation: an arbitrary predicate on bytes.
- Host and I/O errors of storage reads, and the lock on the host connection; the host's storage is fixed during a run, as it is during an execution.
- The storage limiter's fee expression: one page costs one unit of a quota.
- `write_code`, `read_code_at` and the other fixed-slot helpers of storage: sequences of the modelled reads and writes.
- The byte encoding of page ids in a delta, whose order is that of the page map.
- The fee expression language: costs are arbitrary vectors of the length that the evaluator checks, or a failure.
- VmTree works on values: the accumulator that the source moves between VMs is passed and returned, so update in place and aliasing are not captured.
- Storage reads, web and prompt calls, runner registration and file mapping inside a VM: they touch neither fees of the three accounted categories nor the accumulator's emissions.
- Queued validator calls in the VM tree: the child runs where it is submitted; since it changes neither fees nor the accumulator the place does not matter, and the queue itself is modelled separately.
- The notification inside the countdown: a worker may stop when the counter is zero, whichever worker was woken.
- Call numbers beyond the limit on non-deterministic blocks: the contract is stopped there.
- Threads that call `release` for more than their limiter holds: the state machine does not take that step; `AssertionExact` says what the assertion would do.
- Reads, seeks and directory listings of the file system, and path resolution: an open finds something or it does not.
- What `str.lower` does outside ASCII: an arbitrary function; and which byte Rust names in its error for a character of several bytes.
- The SoftFloat sources, the wire format of the host protocol, compilation and caching of modules, and the JSON and archive readers: separate concerns without a shared state with the above.
