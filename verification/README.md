# Verified models of Clarity's core algorithms

This project models, in Dafny, the parts of the Clarity node whose correctness is not obvious from
reading one function, and proves what they promise over all inputs, all runs and all reachable states.
`dafny verify dfyconfig.toml` checks everything.

## What is modelled

**B-tree container** (`BTree*.dfy`; `external/parallel_hashmap/btree.h`). Nodes are cells of a storage
map from addresses to records of values, children, parent link and position. `BTreeStore.Inv` is the
structural invariant for a symbolic node capacity K >= 3: children and parent links agree, nodes are
within capacity, all leaves have one depth, and the subtrees hold consecutive slices of one sequence.
The class `BTreeContainer.Tree` performs insertion, deletion, range deletion and search on the storage as
the source does; a ghost field holds the contents. `BTreeReference` is the plain sorted sequence the
container has to agree with. `BTreeSlots` holds the in-place moves of values and children on arrays; the
storage operations perform them, and both state the result through the same functions (`With`, `Without`,
`LeftGains`, `RightGains`, `LeftAdopts`, `RightAdopts`).

**Line editor** (`Line*.dfy`, `Utf8*.dfy`; `external/linenoise/linenoise.c`). `LineModel.Step` is what
a command does to a text with a cursor and folds. `LineEditor.Editor` is the byte buffer with its fold
table, updated in place, and refines it. `LineSides` tells the commands by the text on both sides of the
cursor and its stops, `Utf8Rule` the clusters by a rule about neighbours, and `LineRuns` has what holds
over whole runs. Rendering, the
terminator of a paste, cluster stepping and the history with its file are modelled as well.

**Codecs** (`Base58*.dfy`, `Base64.dfy`, `Numeral.dfy`, `Crc32.dfy`), the **token bucket**
(`RateLimiter.dfy`), and **proposer rotation with round timers** (`Rotation.dfy`).

**Consensus at one height** (`Bft*.dfy`; `src/Consensus/BftConsensus.cpp`). `Bft` is the protocol as a
state machine over all validators: honest ones prevote, lock, precommit, crash and restart, faulty ones
cast any vote. `BftEngine.Engine` is one validator's engine; each method gives the whole next state of the
engine as a function of the state before. `BftAlert`, `BftDelivery` and `BftProgress` have what those
states mean for one engine, told by the events alone: a quorum of votes delivered in time is acted on,
proposals are learned, and timeouts lead on. `BftSystem` puts the engines of all honest validators together and shows that
every run of such a system is a run of the protocol.

## What turns out not to hold

* **Finality.** Re-precommitting the lock when a round has no prevote quorum
  (`src/Consensus/BftConsensus.cpp:438-446`, which asks for a model check) breaks agreement with four
  validators of which one is faulty: `BftDivergence.Disagreement` is, at every fourth height, a run in
  which two blocks get a precommit quorum and every proposal comes from the proposer of its round, the
  honest ones proposing what they prefer. `BftSafety.Agreement` shows what restores it: agreement holds in
  every run, crashes included, in which no honest validator takes that branch in a round where it prevoted
  something other than its lock (`Bft.Torn`). With nil precommitted there instead, agreement holds in every
  run (`BftSafety.CorrectedAgreement`), and the corrected rule differs from the source's exactly there
  (`BftSafety.CorrectionOnlyWhereTorn`).
* **`find` in multi containers.** With a three-way comparison it returns a matching element but not
  always the first one. It returns the first exactly if no equal element is stored higher in the tree or
  earlier at the same height (`BTreeSearch.FirstOnTop`); `BTreeSearch.FindMissesFirst` is a tree where it
  does not.
* **Right and left over grapheme clusters.** A step right and a step left do not always come back
  (`Utf8Steps.ThreeIndicators`). They do exactly if the cluster starts anew after what precedes it and a
  second regional indicator in it does not hold the step back up (`Utf8Steps.StepsReturn`).
* **Recalling an entry that is too long.** The entry is cut off at a byte; what is left is well-formed text
  exactly if the cut falls between code points (`Utf8.CutText`).
* **Undoing an insertion.** Deleting what was just inserted restores the line exactly if the cursor was
  not inside a fold (`LineRuns.UndoInsert`).
* **History files.** Saving and loading restores a history exactly if it fits, has no carriage returns
  and no neighbouring repeats (`LineHistoryFile.SaveThenLoad`).
* **Base64.** Re-encoding gives a string back exactly if it is canonical (`Base64.EncodeDecode`).
* **Refills in 64 bits.** The comment at `src/Common/RateLimiter.h:92-93` says that the product fits. All
  refills up to a time are exact if and only if the sum at that time is below 2^64
  (`RateLimiter.ExactIffNoWrap`); `RateLimiter.WrapLosesTokens` loses a whole burst.
* **Refills by a clock finer than microseconds.** Each refill drops the rest of a microsecond, so a poll can
  cost a token (`RateLimiter.PollLosesToken`). A poll goes unnoticed by the next event if and only if it is
  `Harmless`: the rests of the two intervals do not add up to a microsecond, or what that would have brought
  is not seen (`RateLimiter.PollNext`). A bucket keeps within a token of the ideal one if and only if its
  events are `OnTime` (`RateLimiter.CloseIffOnTime`). By a clock in whole microseconds both always hold
  (`RateLimiter.WholeMicroseconds`). The bound on what a window grants needs neither condition.
* **Rotation where `height + round` passes 2^64.** Each of n validators proposes once in the n rounds across
  it if and only if n divides 2^64 (`Rotation.FairAcrossWrap`, with `Rotation.WrapRepeats` as an example).
  Whichever f validators are faulty, an honest one is among the next f + 1 proposers if and only if nobody
  proposes twice in them (`Rotation.HonestIffNoRepeat`).

Where documentation and code disagree, the code is modelled. `README.md:228` of the repository says that
timeouts grow exponentially; `src/Common/RoundTimer.cpp:18` is linear with a cap. `README.md:233` says
that a prevote quorum seen after precommitting is not recorded; `checkPrevoteQuorum` records it as the
valid block (`Bft.SeeQuorum`).

## Model

| member | source | states |
|---|---|---|
| `BTreeContainer.Tree.constructor` | external/parallel_hashmap/btree.h:2520-2521 | a new container is sound and empty |
| `BTreeContainer.Tree.RebalanceOrSplit` | external/parallel_hashmap/btree.h:2900-2998 | a full node gets room by moving values to a sibling exactly if one takes them, and else by splitting, recursively up to a new root; the invariant and the contents stay, and the adjusted place has a free slot and the same rank |
| `BTreeContainer.Tree.RoomAbove` | external/parallel_hashmap/btree.h:2965-2981 | before a split the parent has room: it is made recursively, or a new root is put on top |
| `BTreeContainer.Tree.InternalEmplace` | external/parallel_hashmap/btree.h:3101-3130 | inserting at a place of rank k gives old[..k] + [v] + old[k..], and the result is the place of v with rank k |
| `BTreeContainer.Tree.TryShrink` | external/parallel_hashmap/btree.h:3066-3082 | a root without values is replaced by its only child, or the container becomes empty; the invariant holds again |
| `BTreeContainer.Tree.RebalanceAfterDelete` | external/parallel_hashmap/btree.h:2717-2754 | whatever cascade of merges, rebalances and shrinks follows a removal, the container is sound and the returned place has the same rank; a node half full is left alone, an underfull one is merged exactly if it fits with a sibling, and else filled if a sibling gives |
| `BTreeContainer.Tree.EraseFromLeaf` | external/parallel_hashmap/btree.h:2820-2833 | removes exactly the slice of c values and returns the place of what followed |
| `BTreeContainer.Tree.EraseInternal` | external/parallel_hashmap/btree.h:2681-2714 | removing the value of an internal slot by way of its predecessor removes exactly that value and returns the one after it |
| `BTreeContainer.Tree.Erase` | external/parallel_hashmap/btree.h:2681-2714 | removing the value of rank k gives old[..k] + old[k+1..] and a place of rank k |
| `BTreeContainer.Tree.Distance` | external/parallel_hashmap/btree.h:2757-2760 | stepping from one place to another takes as many steps as their ranks differ |
| `BTreeContainer.Tree.EraseSameNode` | external/parallel_hashmap/btree.h:2792-2817 | removing between two slots of one node, with the subtrees between them, removes exactly the slice between the ranks |
| `BTreeContainer.Tree.EraseDown` | external/parallel_hashmap/btree.h:2777-2787 | the loop of a range erase ends because the size falls, and removes exactly the slice |
| `BTreeContainer.Tree.EraseRange` | external/parallel_hashmap/btree.h:2757-2789 | a range erase removes exactly old[i..j], returns j - i and a place of rank i |
| `BTreeContainer.Tree.Clear` | external/parallel_hashmap/btree.h:2861-2868 | the container becomes empty and sound |
| `BTreeContainer.Tree.Begin` | external/parallel_hashmap/btree.h:1711-1713 | the first value, or the end of an empty container |
| `BTreeContainer.Tree.End` | external/parallel_hashmap/btree.h:1717-1717 | the place after the last value |
| `BTreeContainer.Tree.LowerBound` | external/parallel_hashmap/btree.h:3181-3191 | the first value not less than the key, as a scan of the contents from the front finds it |
| `BTreeContainer.Tree.UpperBound` | external/parallel_hashmap/btree.h:3195-3205 | the first value greater than the key, as a scan finds it |
| `BTreeContainer.Tree.Find` | external/parallel_hashmap/btree.h:3209-3222 | a match if there is one, else the end; the first match without three-way comparison or with unique keys, and otherwise exactly if the first match is on top |
| `BTreeContainer.Tree.InsertMulti` | external/parallel_hashmap/btree.h:2590-2600 | the value goes behind all values with equal keys |
| `BTreeContainer.Tree.InsertUnique` | external/parallel_hashmap/btree.h:2530-2552 | the value goes to its place unless its key is there, which the flag says; the result is the lower bound |
| `BTreeContainer.Tree.InsertHintUnique` | external/parallel_hashmap/btree.h:2556-2578 | any hint gives the result of an insertion without a hint |
| `BTreeContainer.Tree.InsertHintMulti` | external/parallel_hashmap/btree.h:2604-2623 | with lo and hi the bounds of the key, a hint of rank lo..hi is where the value goes, one right before lo gives lo, and any other hi |
| `BTreeContainer.Tree.EraseUnique` | external/parallel_hashmap/btree.h:2837-2845 | exactly the values with the key are gone, and counted |
| `BTreeContainer.Tree.EraseMulti` | external/parallel_hashmap/btree.h:2849-2858 | exactly the values with the key are gone, and counted |
| `BTreeRuns.Perform` | external/parallel_hashmap/btree.h:2900-3130 | each operation does to the container what it does to a sorted sequence, and keeps it sound |
| `BTreeRuns.PerformAll` | external/parallel_hashmap/btree.h:3237-3263 | after every run of operations the container is sound and holds what the sorted sequence holds |
| `BTreeRuns.ContentsInOrder` | external/parallel_hashmap/btree.h:2420-2440 | the contents the proofs speak of are the in-order traversal of the nodes' slots and children |
| `BTreeReference.InsertionOrder` | external/parallel_hashmap/btree.h:2590-2600 | after any sequence of multi insertions the values with a given key stand in the order of insertion |
| `BTreeReference.PutUniqueRuns` | external/parallel_hashmap/btree.h:2530-2552 | with unique keys every key occurs at most once, and an insertion adds its own key and no other |
| `BTreeReference.PutSorted` | external/parallel_hashmap/btree.h:2590-2600 | insertions keep the sequence sorted |
| `BTreeReference.HintMultiSorted` | external/parallel_hashmap/btree.h:2604-2623 | every hint keeps the sequence sorted |
| `BTreeReference.HintMultiIs` | external/parallel_hashmap/btree.h:2607-2622 | comparing with the neighbours of the hint decides exactly by the bounds of the key |
| `BTreeReference.WithoutIs` | external/parallel_hashmap/btree.h:2849-2858 | removing a key removes exactly the slice between its bounds, and keeps the rest sorted |
| `BTreeRepartition.RepartitionInv` | external/parallel_hashmap/btree.h:2176-2298 | choosing any value of two siblings as the new delimiter keeps the invariant and the whole contents |
| `BTreeSplit.SplitInv` | external/parallel_hashmap/btree.h:2301-2339 | splitting a node below a parent with room keeps the invariant and the contents |
| `BTreeSplit.MergeInv` | external/parallel_hashmap/btree.h:2342-2369 | merging siblings that fit together keeps the invariant and the contents |
| `BTreeEdit.InsertInv` | external/parallel_hashmap/btree.h:2131-2152 | inserting into a leaf inserts at that rank and keeps the invariant |
| `BTreeEdit.Insert` | external/parallel_hashmap/btree.h:2131-2152 | the in-place shift in a leaf is an insertion into its slots, and nothing else changes |
| `BTreeEdit.RemoveInv` | external/parallel_hashmap/btree.h:2168-2173 | removing from a leaf removes that slice and keeps the invariant |
| `BTreeEdit.Remove` | external/parallel_hashmap/btree.h:2168-2173 | the in-place shift in a leaf removes those slots, and nothing else changes |
| `BTreeEdit.SetSlotInv` | external/parallel_hashmap/btree.h:2688-2693 | overwriting an internal slot overwrites the value of its rank and nothing else |
| `BTreeCut.CutInv` | external/parallel_hashmap/btree.h:2792-2817 | removing a run of an internal node with its subtrees removes that slice and keeps the invariant |
| `BTreeClear.CutNodes` | external/parallel_hashmap/btree.h:2792-2817 | exactly the nodes below the removed run are deleted, and the later children move up with their links |
| `BTreeRoot.InOrderIs` | external/parallel_hashmap/btree.h:3237-3263 | under the invariant the slots and children of a node, read in order, are its slice of the contents |
| `BTreeMoves.RebalanceRightToLeft` | external/parallel_hashmap/btree.h:2176-2217 | moving m values and children in place from the right node to the left and renewing their links is the repartition m values further right |
| `BTreeMoves.RebalanceLeftToRight` | external/parallel_hashmap/btree.h:2220-2298 | moving m values and children in place from the left node to the right and renewing their links is the repartition m values further left |
| `BTreeSplitMoves.SplitNode` | external/parallel_hashmap/btree.h:2301-2339 | the in-place moves of values and children of node, parent and new node are a split at the chosen slot, with all links renewed |
| `BTreeSplitMoves.SplitSlot` | external/parallel_hashmap/btree.h:2306-2314 | an insertion at the start leaves nothing in the left node, one at the end nothing in the right, and any other halves of equal size but for one |
| `BTreeSplitMoves.Merge` | external/parallel_hashmap/btree.h:2342-2369 | the in-place moves put the delimiter and everything of the right node behind the left one and close the gap in the parent, with all links renewed |
| `BTreeMend.TryMergeOrRebalance` | external/parallel_hashmap/btree.h:3012-3063 | an underfull node is merged exactly if it fits with a sibling, else shares evenly with a sibling that gives, else nothing changes; the place keeps its rank |
| `BTreeRoom.RebalanceWithSibling` | external/parallel_hashmap/btree.h:2906-2963 | values move exactly if a sibling has room and the place does not land in a full node; then the place keeps its rank and its node has room |
| `BTreeRoundTrip.MergeUndoesSplit` | external/parallel_hashmap/btree.h:2301-2369 | merging the halves of a split restores the whole storage, links included |
| `BTreeRoundTrip.MergeUndoesBiasedSplit` | external/parallel_hashmap/btree.h:2301-2369 | the same for the slot that each insert position chooses |
| `BTreeSlots.EmplaceValue` | external/parallel_hashmap/btree.h:2131-2152 | the in-place shift and assignment insert the value among the slots in use |
| `BTreeSlots.RemoveValues` | external/parallel_hashmap/btree.h:2168-2173 | the in-place shift removes the slots |
| `BTreeSlots.ValuesRightToLeft` | external/parallel_hashmap/btree.h:2176-2217 | the slot moves leave left ++ delimiter ++ right unchanged with the delimiter m slots on |
| `BTreeSlots.ValuesLeftToRight` | external/parallel_hashmap/btree.h:2220-2298 | both branches of the slot moves give the same result |
| `BTreeSlots.ValuesSplit` | external/parallel_hashmap/btree.h:2301-2339 | the upper slots go to the new node and the split value into the parent |
| `BTreeSlots.ValuesMerge` | external/parallel_hashmap/btree.h:2342-2369 | delimiter and right slots go behind the left ones, and the parent closes the gap |
| `BTreeSlots.SplitThenMerge` | external/parallel_hashmap/btree.h:2301-2369 | on the arrays, merging right after splitting restores the slots of node and parent |
| `BTreeSlots.EmplaceChild` | external/parallel_hashmap/btree.h:2146-2151 | the child shift of an insertion makes room for one child, which is hung there |
| `BTreeSlots.RemoveChild` | external/parallel_hashmap/btree.h:2155-2162 | the child shift of a removal closes the gap |
| `BTreeSlots.KidsRightToLeft` | external/parallel_hashmap/btree.h:2202-2212 | the first m children of the right node go behind those of the left, the others move up |
| `BTreeSlots.KidsLeftToRight` | external/parallel_hashmap/btree.h:2283-2293 | the children of the right node move m places on, and the last m of the left come before them |
| `BTreeSlots.KidsSplit` | external/parallel_hashmap/btree.h:2328-2338 | the children after the split slot go to the new node, which becomes the next child of the parent |
| `BTreeSlots.KidsMerge` | external/parallel_hashmap/btree.h:2355-2368 | the children of the right node go behind those of the left, and the parent loses the right node |
| `BTreeSlots.KidsSplitThenMerge` | external/parallel_hashmap/btree.h:2301-2369 | on the arrays, merging right after splitting restores the children of node and parent |
| `BTreeIterator.Increment` | external/parallel_hashmap/btree.h:2420-2440 | a step leads to the place of the next rank |
| `BTreeIterator.Decrement` | external/parallel_hashmap/btree.h:2443-2463 | a step back leads to the value of the rank before; from an internal slot it is the last of a leaf |
| `BTreeSearch.LinearSearch` | external/parallel_hashmap/btree.h:1261-1271 | stops where the values before the bound end |
| `BTreeSearch.BinarySearch` | external/parallel_hashmap/btree.h:1294-1306 | stops where the values before the bound end |
| `BTreeSearch.LinearSearchCompareTo` | external/parallel_hashmap/btree.h:1276-1289 | the same, and says whether the value there matches |
| `BTreeSearch.BinarySearchCompareTo` | external/parallel_hashmap/btree.h:1311-1346 | the same for unique and multi containers |
| `BTreeSearch.Locate` | external/parallel_hashmap/btree.h:3134-3177 | the descent ends at the leaf place of the lower bound, or at a match that no equal value is stored above or before |
| `BTreeSearch.InternalLast` | external/parallel_hashmap/btree.h:3086-3097 | a place at the end of a leaf becomes the value of the same rank, if there is one |
| `BTreeSearch.InternalFind` | external/parallel_hashmap/btree.h:3209-3222 | finds a match exactly if there is one, and the first one exactly if it is on top |
| `BTreeSearch.FindMissesFirst` | external/parallel_hashmap/btree.h:3161-3177 | a sound, sorted tree of three equal values in which the first is not on top, so that every topmost match, which is what a search returns, is the second |
| `Utf8.DecodeEncode` | external/linenoise/linenoise.c:172-208 | decoding the octets of section 3 of RFC 3629 gives the code point back |
| `Utf8.EncodeDecode` | external/linenoise/linenoise.c:172-208 | the octets of a well-formed character are those of the decoded code point |
| `Utf8.TextIsEncoded` | external/linenoise/linenoise.c:156-208 | every well-formed text is the encoding of its code points |
| `Utf8.EncodedIsText` | external/linenoise/linenoise.c:156-208 | every encoding of code points is a well-formed text |
| `Utf8.CutText` | external/linenoise/linenoise.c:1876-1885 | a text cut off at a byte is a text exactly if the cut falls between code points |
| `Utf8Cluster.DecodePrev` | external/linenoise/linenoise.c:253-269 | finds the code point that ends at a boundary and where it starts |
| `Utf8Cluster.NextCharLen` | external/linenoise/linenoise.c:346-401 | the step over a cluster ends at `FirstEnd` |
| `Utf8Cluster.FirstEndIs` | external/linenoise/linenoise.c:346-401 | in code points, the bytes stepped over are the first cluster |
| `Utf8Rule.FirstClusterIs` | external/linenoise/linenoise.c:346-401 | the first cluster ends at the first place that is not extending, not joined and not a second regional indicator |
| `Utf8Cluster.PrevCharLen` | external/linenoise/linenoise.c:277-342 | the step back over a cluster ends at `LastStart` |
| `Utf8Cluster.LastStartIs` | external/linenoise/linenoise.c:277-342 | in code points, the bytes stepped back over are the last cluster |
| `Utf8Rule.LastClusterIs` | external/linenoise/linenoise.c:277-342 | the last cluster starts at the last place that belongs to nothing before it, or at the regional indicator before that |
| `Utf8Steps.RightThenLeft` | external/linenoise/linenoise.c:277-401 | in code points, a step over a cluster and back comes to the same place exactly under a condition on the cluster and the code point before it |
| `Utf8Steps.StepsReturn` | external/linenoise/linenoise.c:277-401 | the same for the bytes of any well-formed text |
| `Utf8Steps.ThreeIndicators` | external/linenoise/linenoise.c:277-401 | after two regional indicators a third is one cluster forwards and part of a pair backwards |
| `LineFolds.AfterOk` | external/linenoise/linenoise.c:1325-1372 | after any edit the folds are sorted, disjoint, non-empty, within the line and at most sixteen |
| `LineFolds.AfterKeeps` | external/linenoise/linenoise.c:1325-1372 | every fold the edit does not touch is still there, moved along |
| `LineFolds.AfterFrom` | external/linenoise/linenoise.c:1325-1372 | every fold left comes from an untouched one |
| `LineFolds.SameBytes` | external/linenoise/linenoise.c:1325-1372 | a fold that is left covers the same bytes as before |
| `LineFolds.DroppedIffTorn` | external/linenoise/linenoise.c:1325-1372 | a non-empty edit drops a fold exactly if its bytes no longer stand side by side |
| `LineFolds.AddedOk` | external/linenoise/linenoise.c:1275-1291 | a range that meets no fold can become one, and the folds stay in order |
| `LineFolds.AddedHolds` | external/linenoise/linenoise.c:1275-1291 | exactly the new fold is added, and only if there is room |
| `LineFolds.FoldTable.Add` | external/linenoise/linenoise.c:1275-1291 | the insertion into the parallel arrays is the insertion into the sorted list |
| `LineFolds.FoldTable.Remove` | external/linenoise/linenoise.c:1300-1307 | the shift of the arrays removes that fold |
| `LineFolds.FoldTable.RangeOverlaps` | external/linenoise/linenoise.c:1310-1321 | true exactly if some fold meets the range |
| `LineFolds.FoldTable.AdjustAfterInsert` | external/linenoise/linenoise.c:1325-1346 | the loop over the arrays leaves the folds after the insertion |
| `LineFolds.FoldTable.AdjustAfterDelete` | external/linenoise/linenoise.c:1350-1372 | the loop over the arrays leaves the folds after the deletion |
| `LineRender.RawPieces` | external/linenoise/linenoise.c:1162-1236 | the pieces a line is cut into make up the line |
| `LineRender.HiddenPieces` | external/linenoise/linenoise.c:1162-1236 | the hidden pieces are exactly what the folds cover |
| `LineRender.MarkerFits` | external/linenoise/linenoise.c:1057-1070 | every marker fits its field of 64 bytes |
| `LineRender.MarkerTells` | external/linenoise/linenoise.c:1034-1070 | the marker tells, as a number that reads back, the lines where there are newlines and else the bytes |
| `LineRender.GetRenderFolds` | external/linenoise/linenoise.c:1133-1155 | the folds to render with their markers: none in mask mode, else all that fit the line |
| `LineRender.AllUsable` | external/linenoise/linenoise.c:1133-1155 | where the folds are in order, all are rendered |
| `LineRender.RenderedLength` | external/linenoise/linenoise.c:1187-1193 | the length computed beforehand is that of the rendered line |
| `LineRender.RenderBuffer` | external/linenoise/linenoise.c:1162-1236 | fills exactly that length with the line, folds replaced by markers, and puts the cursor at its translation |
| `LineRender.CursorWithin` | external/linenoise/linenoise.c:1198-1228 | the translated cursor is within the rendered line |
| `LineRender.CursorMonotone` | external/linenoise/linenoise.c:1198-1228 | the translation is monotone |
| `LineRender.CursorStrict` | external/linenoise/linenoise.c:1198-1228 | different positions outside folds stay different |
| `LineRender.CursorInFold` | external/linenoise/linenoise.c:1198-1228 | all positions inside a fold are shown after its marker |
| `LineRender.CursorCuts` | external/linenoise/linenoise.c:1198-1228 | what is shown left of the cursor is the rendering of the text before it |
| `LinePaste.NoBorder` | external/linenoise/linenoise.c:2094-2127 | no part of the terminator ends with a shorter one, which is why starting over is enough |
| `LinePaste.StopAtReads` | external/linenoise/linenoise.c:2094-2127 | the matcher that starts over at a mismatch stops right at the first terminator |
| `LinePaste.ReadsOnce` | external/linenoise/linenoise.c:2094-2127 | there is only one place to stop |
| `LinePaste.Normalize` | external/linenoise/linenoise.c:2138-2155 | the pass in place leaves CR and CRLF as LF |
| `LinePaste.NormalizedFixed` | external/linenoise/linenoise.c:2138-2155 | exactly the texts without CR are left alone |
| `LinePaste.NormalizedTwice` | external/linenoise/linenoise.c:2138-2155 | a second pass changes nothing |
| `LinePaste.NormalizedText` | external/linenoise/linenoise.c:2138-2155 | the pass keeps a text well-formed |
| `LinePaste.LinesNormalized` | external/linenoise/linenoise.c:2138-2155 | whatever ends the lines of a text, CR, LF or CRLF, afterwards it is LF and the lines are the same |
| `LinePaste.PasteBufferReserve` | external/linenoise/linenoise.c:2018-2051 | the doubling gives room for the bytes, within the limit |
| `LineModel.Change` | external/linenoise/linenoise.c:1739-1760 | any edit on code point boundaries keeps the line in order: well-formed text, cursor and folds on boundaries |
| `LineModel.NextStop` | external/linenoise/linenoise.c:1240-1254 | a step right makes progress and ends on a boundary |
| `LineModel.PrevStop` | external/linenoise/linenoise.c:1258-1272 | a step left makes progress and ends on a boundary |
| `LineSides.NextStopIs` | external/linenoise/linenoise.c:1240-1254 | a step right goes over the fold that starts there, and only else over a cluster |
| `LineSides.PrevStopIs` | external/linenoise/linenoise.c:1258-1272 | a step left goes over the fold that ends there, and only else over a cluster |
| `LineModel.WordStart` | external/linenoise/linenoise.c:1929-1945 | a boundary at the start of the line or after a space |
| `LineSides.WordStartIs` | external/linenoise/linenoise.c:1929-1945 | stops go left from the cursor over spaces and then over others, both as far as they can, and delete something unless the cursor is at the start |
| `LineSides.WordThenSpaces` | external/linenoise/linenoise.c:1929-1945 | without folds, and with spaces that are clusters of their own, what goes is a word without spaces and the spaces behind it |
| `LineModel.Transposed` | external/linenoise/linenoise.c:2267-2290 | swapping the characters around the cursor keeps the line in order |
| `LineSides.SwapSides` | external/linenoise/linenoise.c:2267-2290 | a swap exchanges the stretches up to the stops on both sides and puts the cursor behind them, or does nothing at the ends, with long stretches and at folds |
| `LineModel.HistoryFold` | external/linenoise/linenoise.c:1076-1128 | the fold of a recalled entry is not empty and on boundaries |
| `LineSides.HistoryFoldIs` | external/linenoise/linenoise.c:1076-1128 | the fold of a recalled entry leaves eight clusters on each side, and none on a side where they have a newline |
| `LineModel.Step` | external/linenoise/linenoise.c:2196-2438 | every command keeps the line in order |
| `LineSides.InputSides` | external/linenoise/linenoise.c:1739-1894 | typing and pasting put the bytes before the cursor if they fit, and recalling replaces both sides |
| `LineSides.DeletionSides` | external/linenoise/linenoise.c:1899-1945 | what each deletion leaves on both sides of the cursor |
| `LineSides.MoveSides` | external/linenoise/linenoise.c:1808-1845 | moves leave the text and the folds, and put the cursor at a stop or an end |
| `LineSides.PasteFolds` | external/linenoise/linenoise.c:2078-2174 | a paste of 200 bytes or more, or with newlines, becomes a fold where it stands, and any other adds none |
| `LineRuns.StepIsEdit` | external/linenoise/linenoise.c:1739-1945 | but for swaps and recalls a command is one edit, and the folds follow it |
| `LineRuns.StepKeeps` | external/linenoise/linenoise.c:1325-1372 | a fold that the edit does not touch survives and hides the same bytes |
| `LineRuns.StepHides` | external/linenoise/linenoise.c:1325-1372 | a fold after a command is an old one hiding the same bytes, or hides what the command brought in |
| `LineRuns.RunHides` | external/linenoise/linenoise.c:1275-1372 | over any run, a fold hides exactly what the line had folded at first or what one paste or recall brought in |
| `LineRuns.UndoInsert` | external/linenoise/linenoise.c:1739-1760 | deleting what was inserted restores the line exactly if the cursor was not inside a fold |
| `LineEditor.Editor.constructor` | external/linenoise/linenoise.c:1971-2014 | an empty line with its limit |
| `LineEditor.Editor.EditGrow` | external/linenoise/linenoise.c:1699-1734 | makes room while keeping the bytes; fails exactly past the limit |
| `LineEditor.Editor.InsertNoRefresh` | external/linenoise/linenoise.c:1739-1760 | inserts at the cursor unless the line would get too long |
| `LineEditor.Editor.EditNextLen` | external/linenoise/linenoise.c:1240-1254 | over a fold or over a cluster |
| `LineEditor.Editor.EditPrevLen` | external/linenoise/linenoise.c:1258-1272 | back over a fold or over a cluster |
| `LineEditor.Editor.MoveLeft` | external/linenoise/linenoise.c:1808-1815 | the cursor goes one stop left |
| `LineEditor.Editor.MoveRight` | external/linenoise/linenoise.c:1818-1825 | the cursor goes one stop right |
| `LineEditor.Editor.MoveHome` | external/linenoise/linenoise.c:1828-1835 | the cursor goes to the start |
| `LineEditor.Editor.MoveEnd` | external/linenoise/linenoise.c:1838-1845 | the cursor goes to the end |
| `LineEditor.Editor.Delete` | external/linenoise/linenoise.c:1899-1910 | removes up to the next stop |
| `LineEditor.Editor.Backspace` | external/linenoise/linenoise.c:1913-1925 | removes from the stop before |
| `LineEditor.Editor.DeletePrevWord` | external/linenoise/linenoise.c:1929-1945 | removes from the start of the word, which stops reach over spaces first and then over others |
| `LineEditor.Editor.KillLine` | external/linenoise/linenoise.c:2411-2416 | removes everything |
| `LineEditor.Editor.KillToEnd` | external/linenoise/linenoise.c:2417-2422 | removes from the cursor on |
| `LineEditor.Editor.Transpose` | external/linenoise/linenoise.c:2267-2290 | swaps the characters around the cursor unless one is too large or a fold is met |
| `LineEditor.Editor.ReadPaste` | external/linenoise/linenoise.c:2094-2136 | collects exactly the bytes before the terminator unless they are too many, and consumes the terminator |
| `LineEditor.Editor.EditPaste` | external/linenoise/linenoise.c:2078-2174 | the paste is normalized and inserted, as a fold if it is long or has newlines; too large a paste is dropped |
| `LineEditor.Editor.Recall` | external/linenoise/linenoise.c:1851-1894 | the entry, cut off if it does not fit, replaces the line, its fold the old ones |
| `LineEditor.BuildHistoryFold` | external/linenoise/linenoise.c:1076-1128 | the loops over clusters find the fold of the entry |
| `LineSession.Perform` | external/linenoise/linenoise.c:2196-2438 | the buffer editor does what the command does to the line |
| `LineSession.PerformAll` | external/linenoise/linenoise.c:2196-2438 | over any session the buffer holds the line of `Run` |
| `LineHistory.AddsKeepLatest` | external/linenoise/linenoise.c:2663-2697 | under adds alone the history is the latest lines with repeats made single |
| `LineHistory.CollapsedIs` | external/linenoise/linenoise.c:2663-2697 | making repeats single leaves none, and changes nothing exactly where there are none |
| `LineHistory.CollapsedFollows` | external/linenoise/linenoise.c:2663-2697 | making repeats single leaves no line out and changes no order |
| `LineHistory.CutThenAdd` | external/linenoise/linenoise.c:2703-2735 | a history that is cut down goes on as if it had never kept more |
| `LineHistory.ThereAndBack` | external/linenoise/linenoise.c:1851-1894 | going one entry and back shows the line left and loses none |
| `LineHistory.WalkShows` | external/linenoise/linenoise.c:1851-1894 | k steps up or down show the k-th entry from there, and store the line left and nothing else |
| `LineHistory.WalkEnds` | external/linenoise/linenoise.c:1862-1871 | past either end nothing moves |
| `LineHistory.History.Add` | external/linenoise/linenoise.c:2663-2697 | the array update adds the line unless it is a repeat, and says which |
| `LineHistory.History.SetMaxLen` | external/linenoise/linenoise.c:2703-2735 | keeps the latest entries |
| `LineHistory.History.Next` | external/linenoise/linenoise.c:1851-1894 | stores the edited line and shows the next one |
| `LineHistoryFile.Save` | external/linenoise/linenoise.c:2739-2764 | one line for each entry, newlines as carriage returns |
| `LineHistoryFile.ReadLine` | external/linenoise/linenoise.c:2519-2572 | reads up to the next newline or the end |
| `LineHistoryFile.Load` | external/linenoise/linenoise.c:2771-2800 | adds the lines of the file one by one |
| `LineHistoryFile.SaveThenLoad` | external/linenoise/linenoise.c:2739-2800 | saving and loading into an empty history gives it back exactly if it fits, has no carriage returns and no repeats |
| `Base58.BlockRound` | src/Common/Base.cpp:98-149 | decoding a block undoes encoding |
| `Base58.BlockUnique` | src/Common/Base.cpp:113-149 | letters that decode are the encoding of their block |
| `Base58.LettersSuffice` | src/Common/Base.cpp:19-19 | 58^encodedSize >= 256^size for every block size |
| `Base58.AlphabetIs` | src/Common/Base.cpp:16-16 | the letters are those of the alphabet, in its order |
| `Base58.LettersNeeded` | src/Common/Base.cpp:19-19 | one letter fewer would not hold the block |
| `Base58.BlockValue` | src/Common/Base.cpp:98-111 | letters and bytes of a block are the same number, the first ones weighing most |
| `Base58.DecodeEncode` | src/Common/Base.cpp:194-252 | decoding the encoding of any bytes gives them back |
| `Base58.EncodeDecode` | src/Common/Base.cpp:194-252 | every accepted string is the encoding of its result |
| `Base58Blocks.EncodeBlock` | src/Common/Base.cpp:98-111 | the loop writes the letters of the block |
| `Base58Blocks.EncodeBase58` | src/Common/Base.cpp:194-218 | the loops write the encoding |
| `Base58Blocks.WordNumber` | src/Common/Base.cpp:121-140 | the 64-bit overflow tests are exact: the loop accepts exactly the letters whose number is below 2^64 |
| `Base58Blocks.DecodeBlock` | src/Common/Base.cpp:113-149 | accepts exactly what stands for a block, and writes it |
| `Base58Blocks.DecodeBase58` | src/Common/Base.cpp:220-252 | the loops decode, or fail exactly where there is nothing to decode to |
| `Base64.DecodeEncode` | src/Common/Base.cpp:254-350 | any string that is an encoding once white space is removed decodes to the bytes |
| `Base64.EncodeDecode` | src/Common/Base.cpp:254-350 | re-encoding gives a string back exactly if it is canonical (sections 3.5 and 4 of RFC 4648) |
| `Base64.EncodedIsCanonical` | src/Common/Base.cpp:254-292 | every encoding is canonical |
| `Base64.EncodedLength` | src/Common/Base.cpp:254-292 | four symbols for every three bytes begun |
| `Base64.AlphabetIs` | src/Common/Base.cpp:254-292 | the symbols are those of table 1 of RFC 4648 |
| `Base64.GroupBits` | src/Common/Base.cpp:254-292 | four symbols and three bytes are the same 24 bits, and as many symbols are padding as bytes are missing |
| `Base64.EncodeBase64` | src/Common/Base.cpp:254-292 | the loop encodes |
| `Base64.DecodeBase64` | src/Common/Base.cpp:294-350 | the loop decodes; what cannot be decoded gives no bytes |
| `Base64.StripInput` | src/Common/Base.cpp:299-314 | drops white space and fails exactly at other foreign bytes |
| `Crc32.TableIs` | src/Common/CRC32.h:36-70 | every table entry is eight bits of the division by 0xEDB88320 |
| `Crc32.StepsAgree` | src/Common/CRC32.h:76-80 | the table step on 64 bits, with the signed character, is the division of one byte, and 32 bits hold it |
| `Crc32.Compute` | src/Common/CRC32.h:72-83 | the loop computes the bit-at-a-time checksum of section 8 of RFC 1952, below 2^32 |
| `Crc32.CheckValue` | src/Common/CRC32.h:72-83 | the digits 1 to 9 have the checksum 0xCBF43926 |
| `Crc32.BitsXor` | src/Common/CRC32.h:76-80 | the division is linear |
| `Crc32.BitsInjective` | src/Common/CRC32.h:76-80 | the division loses nothing |
| `Crc32.BurstsAreFound` | src/Common/CRC32.h:72-83 | strings that differ only within four bytes in a row have different checksums |
| `RateLimiter.RefillTwice` | src/Common/RateLimiter.h:80-108 | refilling on the way makes no difference if and only if it is harmless |
| `RateLimiter.ExactIffNoWrap` | src/Common/RateLimiter.h:91-95 | all 64-bit refills up to a time equal the unbounded ones if and only if the sum at that time is below 2^64 |
| `RateLimiter.PollLosesToken` | src/Common/RateLimiter.h:83-89 | polled after 1999 ns a bucket has two tokens at 3998 ns, unpolled three |
| `RateLimiter.PollNext` | src/Common/RateLimiter.h:67-73 | the next event gives the same grant and the same bucket with and without a poll before it if and only if the poll is harmless |
| `RateLimiter.RunClose` | src/Common/RateLimiter.h:50-108 | over every run of events on time the bucket is at least the ideal continuous one charged with the same grants, and less than one token above it |
| `RateLimiter.GrantDecided` | src/Common/RateLimiter.h:50-63 | what the ideal bucket holds decides: with n whole tokens the request is granted, and only with more than n - 1 |
| `RateLimiter.RunDecided` | src/Common/RateLimiter.h:50-108 | the same for every event of every run on time |
| `RateLimiter.CloseIffOnTime` | src/Common/RateLimiter.h:80-108 | all buckets of a size and speed keep within a token of the ideal one until an event if and only if the event is on time |
| `RateLimiter.WholeMicroseconds` | src/Common/RateLimiter.h:83-89 | by a clock in whole microseconds every poll is harmless and every event on time |
| `RateLimiter.WindowBound` | src/Common/RateLimiter.h:50-108 | in every run, wrap-around or not, any window of t nanoseconds grants at most burst + (rate ceil(t / 1000) + 999999) / 10^6 |
| `RateLimiter.PollAnywhere` | src/Common/RateLimiter.h:67-73 | a harmless poll anywhere in a run changes no grant and no later state |
| `RateLimiter.WrapLosesTokens` | src/Common/RateLimiter.h:91-95 | a refill of the whole bucket that the wrapped sum loses |
| `RateLimiter.Limiter.constructor` | src/Common/RateLimiter.h:38-45 | a full bucket |
| `RateLimiter.Limiter.Refill` | src/Common/RateLimiter.h:80-108 | the update is that of the bucket, in 64-bit arithmetic |
| `RateLimiter.Limiter.TryConsume` | src/Common/RateLimiter.h:50-63 | grants exactly if the refilled bucket holds as many tokens; a disabled limiter grants everything |
| `RateLimiter.Limiter.Available` | src/Common/RateLimiter.h:67-73 | a poll |
| `Rotation.ProposerFor` | src/Consensus/ProposerSelection.h:28-33 | a member of the active set, if there is one |
| `Rotation.TurnOf` | src/Consensus/ProposerSelection.h:19-33 | validator i proposes exactly where height + round leaves the rest i |
| `Rotation.Fair` | src/Consensus/ProposerSelection.h:19-33 | in any L rounds in a row each of n validators proposes floor(L/n) or ceil(L/n) times, if the 64-bit sum does not wrap or n divides 2^64 |
| `Rotation.FairAcrossWrap` | src/Consensus/ProposerSelection.h:19-33 | in n rounds across the wrap-around everyone proposes once if and only if n divides 2^64 |
| `Rotation.WrapRepeats` | src/Consensus/ProposerSelection.h:23-23 | where the 64-bit sum wraps, a validator can propose twice in a row |
| `Rotation.HonestIffNoRepeat` | src/Consensus/ProposerSelection.h:19-33 | an honest validator is among the next f + 1 proposers, whichever f are faulty, if and only if none of these proposes twice |
| `Rotation.HonestSoon` | src/Common/RoundTimer.cpp:16-20 | with at most (n-1)/3 faulty validators and no repeats an honest one proposes within as many rounds, after at most that many capped timeouts |
| `Rotation.TimeoutGrows` | src/Common/RoundTimer.cpp:16-20 | the first round has the base timeout, and each further one as much more until the cap |
| `Rotation.RoundTimer.Start` | src/Common/RoundTimer.cpp:22-26 | sets the deadline of the round |
| `Rotation.RoundTimer.Poll` | src/Common/RoundTimer.cpp:45-56 | fires once the deadline has passed, and stops |
| `Rotation.RoundTimer.PollAll` | src/Common/RoundTimer.cpp:45-56 | of any polls after a start only the first past the deadline fires |
| `Rotation.RoundTimer.PerformAll` | src/Common/RoundTimer.cpp:22-61 | however it is started, stopped, forced and polled, a timer fires no more often than it was started |
| `Bft.QuorumsMeet` | src/Core/RewardTypes.h:25-28 | two quorums share an honest validator |
| `Bft.OnePerRound` | src/Consensus/BftConsensus.cpp:1546-1581 | in one round only one block can have a quorum |
| `BftSafety.NextKeeps` | src/Consensus/BftConsensus.cpp:360-462 | every action but a torn precommit keeps the invariant on votes, locks and valid blocks of all validators |
| `BftSafety.NoOtherPolka` | src/Consensus/BftConsensus.cpp:1585-1605 | once a block has a precommit quorum no other block gets a prevote quorum in a later round |
| `BftSafety.Agreement` | src/Consensus/BftConsensus.cpp:396-462 | in every run without torn precommits two blocks with precommit quorums, in whatever rounds, are the same |
| `BftSafety.CorrectedAgreement` | src/Consensus/BftConsensus.cpp:438-446 | with nil precommitted instead of a lock that was not prevoted, two blocks with precommit quorums are the same in every run |
| `BftSafety.CorrectionOnlyWhereTorn` | src/Consensus/BftConsensus.cpp:438-446 | the corrected rule and the source's differ exactly in torn precommits |
| `BftDivergence.Disagreement` | src/Consensus/BftConsensus.cpp:396-462 | at every fourth height four validators, one of them faulty, can give two blocks precommit quorums, with every proposal from the proposer of its round |
| `BftVotes.QuorumValueIn` | src/Consensus/BftConsensus.cpp:1546-1575 | counting finds the known block with a quorum, or that there is none |
| `BftVotes.OneWinner` | src/Consensus/BftConsensus.cpp:1546-1575 | only one block can have a quorum among the votes an engine holds |
| `BftEngine.Engine.constructor` | src/Consensus/BftConsensus.cpp:302-317 | a fresh engine: round 0, nothing signed, locked, recorded or committed |
| `BftEngine.Engine.SelectPrevote` | src/Consensus/BftConsensus.cpp:1585-1605 | the lock unless a newer block is valid, else what is proposed |
| `BftEngine.Engine.EnterPrevote` | src/Consensus/BftConsensus.cpp:360-394 | signs exactly one prevote for the round, records it, and acts on a quorum that earlier votes complete |
| `BftEngine.Engine.EnterPrecommit` | src/Consensus/BftConsensus.cpp:396-462 | with a prevote quorum locks on its block, makes it valid and signs it, else signs the lock, else nil; the precommit is recorded and may commit |
| `BftEngine.Engine.EnterCommit` | src/Consensus/BftConsensus.cpp:464-563 | the first block with a precommit quorum is committed with its round, later ones change nothing |
| `BftEngine.Engine.CheckPrevoteQuorum` | src/Consensus/BftConsensus.cpp:1513-1530 | a quorum makes a prevoting engine precommit, and later only its block valid; without one nothing changes |
| `BftEngine.Engine.CheckPrecommitQuorum` | src/Consensus/BftConsensus.cpp:1532-1539 | commits exactly the known block with a quorum of precommits of the round |
| `BftEngine.Engine.RecordPrevote` | src/Consensus/BftConsensus.cpp:1455-1485 | the first prevote of a voter is recorded and acted on, another is ignored |
| `BftEngine.Engine.RecordPrecommit` | src/Consensus/BftConsensus.cpp:1455-1485 | the first precommit of a voter is recorded and acted on, another is ignored |
| `BftEngine.Engine.RecordPastPrecommit` | src/Consensus/BftConsensus.cpp:1487-1511 | the precommit goes to the votes kept of its round, of which the oldest rounds are dropped past the cap, and commits if it completes a quorum |
| `BftEngine.Engine.OnProposal` | src/Consensus/BftConsensus.cpp:825-915 | the first proposal of the round is kept, its block becomes known, and a proposing engine prevotes |
| `BftEngine.Engine.OnVote` | src/Consensus/BftConsensus.cpp:1054-1109 | a vote for a known block is recorded under its kind, for this round or, as a precommit, for an earlier one; others are ignored; `BftDelivery` has what this is for |
| `BftEngine.Engine.OnTimeout` | src/Consensus/BftConsensus.cpp:2136-2178 | prevotes, precommits, or commits on a quorum and else goes to the next round, by the phase whose timer ran out |
| `BftEngine.Engine.SkipTo` | src/Consensus/BftConsensus.cpp:2398-2444 | goes to a later round, and to no earlier one |
| `BftEngine.Engine.EnterRound` | src/Consensus/BftConsensus.cpp:2492-2534 | precommits of the round are kept, votes and proposal go, own votes of the new round come back |
| `BftEngine.Engine.Restart` | src/Consensus/BftConsensus.cpp:125-229 | after a crash exactly the signed votes, the lock and a stored locked block come back, and the round resumed at is the last voted or locked in |
| `BftEngine.Trim` | src/Consensus/BftConsensus.cpp:1487-1511 | the loop drops oldest rounds down to the cap |
| `BftEngine.TrimKeeps` | src/Consensus/BftConsensus.cpp:1487-1511 | votes of the last 64 rounds are never dropped |
| `BftAlert.RunAlert` | src/Consensus/BftConsensus.cpp:1513-1539 | over every run of events an engine that has not committed holds no precommit quorum for a known block, and one still prevoting no prevote quorum |
| `BftAlert.QuorumCommits` | src/Consensus/BftConsensus.cpp:464-563 | in every run from the start an engine that holds a precommit quorum for a known block, of this or an earlier round, has committed |
| `BftDelivery.QuorumDelivered` | src/Consensus/BftConsensus.cpp:1455-1539 | over every run, precommits that make up a quorum for a known block, each the first of its validator in that round and delivered at most 64 rounds later with no crash after, make the engine commit |
| `BftDelivery.LastDelivered` | src/Consensus/BftConsensus.cpp:464-563 | the precommit that completes such a quorum commits just that block in that round |
| `BftDelivery.PolkaDelivered` | src/Consensus/BftConsensus.cpp:396-462 | over every run, a prevote quorum delivered to an engine that has not precommitted makes it lock on that block and precommit it |
| `BftDelivery.EventFollows` | src/Consensus/BftConsensus.cpp:1455-1511 | votes of a round stay while they are in time, and grow exactly by what an event brings and the engine's own vote |
| `BftProgress.UpLearns` | src/Consensus/BftConsensus.cpp:825-915 | over every run the first proposal of every round is known |
| `BftProgress.ProposalPrevoted` | src/Consensus/BftConsensus.cpp:360-394 | the first proposal of a round makes a proposing engine prevote what it prefers |
| `BftProgress.RunSigned` | src/Consensus/BftConsensus.cpp:1630-1700 | over every run the phases left behind in a round have their signed votes |
| `BftProgress.ThreeTimeouts` | src/Consensus/BftConsensus.cpp:2136-2178 | three timeouts lead to a new round or a commit |
| `BftProgress.LatePolka` | src/Consensus/BftConsensus.cpp:1513-1530 | a prevote quorum after precommitting makes its block valid and leaves the lock |
| `BftProgress.LockIsKnown` | src/Consensus/BftConsensus.cpp:178-186 | after a crash the lock is the valid block, and known without a proposal if it was stored |
| `BftProgress.SkipMoves` | src/Consensus/BftConsensus.cpp:2398-2444 | a skip leads to its round, if that is a later one |
| `BftSystem.FitsEvent` | src/Consensus/BftConsensus.cpp:825-1109 | whatever an engine does on an event is a run of its validator's own actions in the protocol, torn only where the event is |
| `BftSystem.SystemRuns` | src/Consensus/BftConsensus.cpp:125-563 | every run of a system of engines and faulty voters is a run of the protocol, and votes cast stay cast |
| `BftSystem.CommitsAgree` | src/Consensus/BftConsensus.cpp:464-563 | in every run of a system without torn precommits the blocks that two engines commit, at whatever times, are the same |

## Left out

- B-tree nodes are cells in a map from addresses to records: each node operation moves the entries in place on arrays loaded from the cells it is about, and writes them back, so aliasing between node pointers is not captured.
- Address 0 stands for the null pointer and for the shared empty node of a new container.
- The allocator, the byte layout and size computation of nodes, node handles, copying, moving and swapping containers, and `count`.
- BftSafety.Agreement: is for one validator set, so the second set of an emergency is not covered; its other half is one run at every fourth height, `BftDivergence.Disagreement`, as not every run with a torn precommit ends in disagreement.
- Consensus: timeout certificates, evidence of double votes and retries of a failing commit.
- Consensus: votes are unforgeable, so signatures do not appear; votes that the source buffers for later have to come again.
- BftEngine.Engine.EnterCommit: does not model applying the block, which calls code outside the engine, nor the next height.
- BftEngine.Engine.CheckPrevoteQuorum: after a commit nothing changes any more, while the source may still update the valid block until the next height begins.
- BftEngine.Engine.Restart: a crash between writing the lock and signing the precommit is an event where another validator's prevote completes the quorum; the same crash at the engine's own prevote is an action of the protocol only (`Bft.LockAndRestart`).
- BftAlert.QuorumCommits: is for two validators and more, like `BftDelivery`; a single one commits by its own votes.
- BftDelivery.QuorumDelivered: votes for later rounds and for blocks not yet known do not count, as they have to come again.
- BftEngine.Engine.SkipTo: the round to skip to is given; counting the votes of later rounds is not modelled.
- Line editor: terminal input and output, column widths, hints and completion.
- Line editor: text that is not well-formed UTF-8, failing allocations and history lines longer than the fixed read buffer; they are excluded by preconditions.
- LineEditor.Editor.Recall: is for entries whose kept part is well-formed text; `Utf8.CutText` says when that is so.
- LineSession.PerformAll: a session recalls only entries that fit the line.
- Clocks, the network and the file system are parameters: times, votes and file contents are given as values.
- RateLimiter.PollAnywhere: a poll that is not harmless is compared up to the next event only (`RateLimiter.PollNext`).
- Rotation.FairAcrossWrap: is about one turn of all validators; longer stretches across the wrap-around are covered by `Rotation.Fair` where n divides 2^64.
- The matching engine, the state trie, rewards, the wallet and the network layer.
