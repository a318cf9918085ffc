# Bare-metal programs of the processor test suite, modelled and proved in Dafny

The repository holds a RISC-V processor and the C programs and scripts that run on it or
feed it. This project models the ones with the most state and arithmetic, and proves what
they promise:

- **CoreMark** (`testler/coremark`). The linked-list benchmark works in place on list
  nodes and data cells: a bottom-up mergesort whose comparison function changes the data
  it compares, reversal, removal by swapping cells and its undo, insertion from a bounded
  block. The main theorem is the remark above `core_bench_list`, that the list is back in
  its original state: every cell pointer and data word is, whatever the seeds, and every
  link exactly if no two nodes of equal index have changed places
  (`ListBench.CoreBenchList`), so for all finds exactly if no index occurs twice
  (`ListBench.AlwaysBack`). It carries over to whole runs of `iterate`
  (`CoreIterate.Iterate`) and runs from a fresh set-up (`CoreMain.SetUpAndIterate`). The
  sort by data is shown to evaluate the cells in the order of the list, each once
  (`ListTrace`), so list order, state text and all CRCs of a run are a function of what it
  starts from; when the text comes back is settled exactly (`CoreText`), and the final CRC
  is that of the words the run has folded in (`CoreCrc`), the score of the finds among them
  (`ListFinds`). With it come the state benchmark (a tokenizer proved against its regular
  languages, its counters against the text, a strided corruption and its undo), the CRC
  (linear, bijective, burst-detecting, the unique remainder of a polynomial division) and
  the matrix benchmark (exactness, restoration, layout, what its sums count).
- **The barrier** of `util.h`, as interleaved atomic steps of any number of threads.
- **Formatting and parsing**: `number`, `skip_atoi` and the whole of `ee_vsprintf` without
  floating point, with what every conversion prints told by reading the text
  (`PrintedFields`); `printnum`, `%d`, `sprintf` and `atol` of `syscalls.c`, with round
  trips and exactly when they fail.
- **Word-at-a-time code**: `strcpy`, `strcmp`, `memcpy`, `memset`, proved equal to their
  byte loops for every alignment.
- **The fixed-point Mandelbrot kernel**: no overflow, least escape index, image filled.
- **`vhtocoe.py`**: what it writes for any lines, and when that is the image of the memory.

`dafny verify dfyconfig.toml` checks the project. Widths are those of
`testler/dhrystone/core_portme.h`: 16-bit and 32-bit words wrap, and every conversion is
written out (`MachineInts`). Words are numbers with recursively defined exclusive or and
or, except in `WordStrings`, where bytes and words are bit-vectors.

How the parts depend on each other: `MachineInts` - `Crc` - `StateScan` - `StateBench` -
`Matrix` - `MatrixInit`; `ListOrder` (orders as plain sequences) - `ListMemory` -
`ListCompare` - `ListTrace` - `ListSort` - `ListOps` - `ListFinds` - `ListBench`; from there
`ListInit` and `CoreIterate` - `CoreText`, which meet in `CoreMain`, with `CoreCrc` beside them;
`NumberFormat` - `FormatString` - `PrintedFields`, and `NumberFormat` - `Syscalls`, `CoeImage`;
`WordStrings` and `Mandelbrot` need only `MachineInts`, and `Barrier` nothing.

The list memory is the class `ListMemory.Memory`, with the fields `next` and `info` of all
nodes and `data16` and `idx` of all cells, updated in place; a pointer is the number of a
node or cell. Statements about a list name the sequence of its nodes as a ghost argument.

Where the code does not do what its comments or its callers suggest, the model follows the
code:

- `core_list_mergesort` has a remark about the empty list, but `tail->next = NULL` goes
  through a null `tail` then (`ListSort.EmptyPass`); `ListSort.Mergesort` requires a
  non-empty list.
- The comment at `core_list_find` says the index is used if it is not 0; the code uses it
  if it is not negative.
- Both CRC loops of `core_bench_list` fold in the data of the list head once per remaining
  node, not the data of the node they have reached.
- The head of an initialized list stays first only while the first fifth of the indices
  does not overflow 16 bits (`ListInit.HeadFirstIff`).
- The scientific pattern `-87e+832` is spoiled at its `e`, because a mantissa needs a
  point (`StateBench.ScientificPatterns`, `StateBench.SpoiledPattern`).
- An unaligned matrix block can be overrun (`MatrixInit.UnalignedOverrun`); a search in a
  block near 4 GB passes the largest dimension (`MatrixInit.SearchOverruns`); an empty
  block makes N wrap around to 2^32 - 1 (`MatrixInit.ChooseDimension`), and an empty state
  block is overrun (`StateBench.EmptyBlockOverrun`). The set-up excludes both.
- The list is not always back in its original state. Behind repeated indices nodes may have
  changed places (`ListBench.OneFindReverses` is a find that does it), and one may even have
  moved in front of the head, where the record's pointer does not see it any more
  (`CoreIterate.HeadOvertaken`). The indices of an initialized list are all different
  exactly under the condition of `ListInit.DistinctIndices`: never from 323 items on.
- Two running CRCs that differ by 0xc001 are the same after one state or matrix operation,
  whatever the data; any other difference survives it (`ListCompare.CrcChained`).
- The seed of the matrices is to decide their values, but from the eighteenth entry on it
  plays no part (`MatrixInit.SeedForgotten`).
- Equal seeds do not always give the state text back: some bytes can turn into commas,
  which the undo leaves alone (`CoreMain.TextNotBack`). `CoreText.EqualMasksBack` and
  `CoreMain.SetUpAndIterate` have the exact condition; the scans stay inside the text all
  the same (`StateBench.InitTextStaysScannable`).
- The `-` flag of `vprintfmt` pads with minus signs in front of the digits, so the text is
  the documented one only where there is nothing to pad (`Syscalls.DashPadding`).
- Blanks in front of a negative number follow its sign, and `atol` takes them for digits,
  as it does dashes: `Syscalls.AtolOfDecimal` says exactly when a number is read back.
- The main program of the Mandelbrot demonstration moves its frame a little for 2000
  frames and so leaves the coordinates for which `Mandelbrot.Iterate` is proved;
  `Mandelbrot.OverflowBeyond` is a point outside it that overflows.
- `vhtocoe.py` takes for granted that both memories have their address lines, instruction
  memory first. What comes in front of the instruction memory's stays in front of its image
  (`CoeImage.BothFiles`). Without the data memory's line the instruction memory's image goes
  to the other file (`CoeImage.OneImage`); without the instruction memory's no gap is filled
  (`CoeImage.NothingOpened`); a second line for the data memory overwrites the instruction
  memory's file (`CoeImage.Overwritten`). Addresses given on the command line are strings
  there and equal no number, so the model takes numbers.

## Model

| member | source | states |
|---|---|---|
| ListCompare.CalcFunc | testler/coremark/core_list_join.c:69-114 | returns 7 bits of the cached value or else of the operation (state scan, matrix test or the data itself); data, state text and all CRCs are afterwards exactly those of touching that one cell: a cached cell changes nothing, any other is cached with its backup byte kept, its full result, started from the record's CRC, folded into that CRC and the first state or matrix result put on record |
| ListCompare.CmpComplexData | testler/coremark/core_list_join.c:120-126 | data, text and CRCs are those of touching the first and then the second cell; both are cached then, and the result is the difference of their 7-bit values |
| ListCompare.CmpIdxData | testler/coremark/core_list_join.c:133-142 | the difference of the indices; with a null result record both low bytes are rebuilt from the backup, otherwise nothing changes |
| ListCompare.Compare | testler/coremark/core_list_join.c:64-67 | the call through the function pointer: non-positive exactly when the first key is not above the second, whichever function it is |
| ListCompare.TouchSettles | testler/coremark/core_list_join.c:69-114 | touching a cell settles it for good, keeps every backup byte and all other cells, and touching it again does nothing |
| ListCompare.StepBits | testler/coremark/core_list_join.c:77-88 | the step has bits 3 to 6 of the data word in both its halves, or is 0x22 where that would be less |
| ListCompare.OpIsCrc | testler/coremark/core_list_join.c:86-102 | the result of a state or matrix operation is the CRC, started from the running one, of the image of both count tables or of the CRC of the matrix test |
| ListCompare.ResultFollowsCrc | testler/coremark/core_list_join.c:86-102 | from different running CRCs a benchmark operation gives different results |
| ListCompare.CrcChained | testler/coremark/core_list_join.c:86-108 | two running CRCs are equal after an operation exactly if they were equal before, or, behind a benchmark, differed by 0xc001; a first state or matrix CRC on record always differs if they did |
| ListCompare.DifferenceLost | testler/coremark/core_list_join.c:86-105 | for example 0 and 0xc001: any state or matrix operation leaves the same CRC behind both |
| ListCompare.TouchFollowsCrc | testler/coremark/core_list_join.c:69-112 | the same of touching a cell that is not cached |
| ListTrace.TouchedSettled | testler/coremark/core_list_join.c:69-142 | after a whole list has been touched every cell is settled, every backup byte kept and no other cell changed |
| ListTrace.ComparedHeads | testler/coremark/core_list_join.c:536-565 | a comparison of the heads of two runs touches nothing new, or exactly the next untouched nodes of the original list, in its order |
| ListTrace.AllTouched | testler/coremark/core_list_join.c:499-595 | once the last node is settled what has happened to data, text and CRCs is the list touched from front to back, each cell once |
| ListOrder.TakeNext | testler/coremark/core_list_join.c:536-576 | moving the smaller head of two remaining runs to the output keeps the output sorted and stable in front of both |
| ListOrder.PassStep | testler/coremark/core_list_join.c:515-581 | merging the next two runs leaves an output of sorted runs of twice the width, with everything written ahead of everything left |
| ListOrder.RunsSplit | testler/coremark/core_list_join.c:518-530 | what the stepping loop cuts off are the first two sorted runs of what is left |
| ListOrder.SortedUnique | testler/coremark/core_list_join.c:222-223 | two stable orders of the same nodes by the same keys are equal: the sort has only one possible result |
| ListSort.StepAlong | testler/coremark/core_list_join.c:518-527 | steps insize places or to the end and counts the places |
| ListSort.CompareHeads | testler/coremark/core_list_join.c:556-565 | the comparison in the merge: non-positive exactly if the first key is not above the second, both cells settled, the trace as far as the heads |
| ListSort.TakeFromP | testler/coremark/core_list_join.c:536-565 | chooses the element that belongs next in a stable order, touching only the data of the two heads, and moves the order of evaluation on along the list |
| ListSort.Emit | testler/coremark/core_list_join.c:567-576 | links the element behind the tail, or makes it the head |
| ListSort.MergeRuns | testler/coremark/core_list_join.c:532-577 | the inner loop: the output is a sorted stable rearrangement of exactly the two runs, linked behind what was written |
| ListSort.MergeNext | testler/coremark/core_list_join.c:515-581 | one turn of the middle loop: the next two runs are merged and the pointer is at the rest |
| ListSort.MergePass | testler/coremark/core_list_join.c:509-583 | one pass: the same nodes, acyclic, in aligned sorted runs of 2*insize; at most one merge exactly if insize was enough |
| ListSort.SortPass | testler/coremark/core_list_join.c:507-590 | the invariant between passes: acyclic list, same nodes, aligned runs of insize sorted, recorded keys still valid |
| ListSort.SortPasses | testler/coremark/core_list_join.c:505-591 | the outer loop: after k passes the runs have 2^k nodes; it stops after the least k >= 1 with 2^k >= n |
| ListSort.Mergesort | testler/coremark/core_list_join.c:499-595 | terminates with an acyclic list of exactly the same nodes, ordered by key and stable, for either comparison function, whatever the operations return; for n >= 2 every key is final, and data, state text and CRCs are those of touching the cells once each in the order the list had before; links and cells outside the list are untouched; the number of passes is the least k >= 1 with 2^k >= n |
| ListSort.StableOrderUnique | testler/coremark/core_list_join.c:499-595 | what a stable sort leaves is the list inserted node by node by key, equal keys in their old order: the result is a function of list and keys |
| ListSort.EmptyPass | testler/coremark/core_list_join.c:509-586 | for the empty list, which a remark allows for, the pointers a pass starts with end the middle loop at once and give the store behind it no node |
| ListSort.ComplexSortMeaning | testler/coremark/core_list_join.c:70-126 | after sorting by data: bit 7 set in every cell, backup bytes unchanged, already cached cells unchanged, 7-bit values nondecreasing and equal ones in their old order |
| ListOps.FindAt | testler/coremark/core_list_join.c:434-449 | the first place that matches by index, or by low data byte for a negative index, and no earlier place does |
| ListOps.CoreListFind | testler/coremark/core_list_join.c:434-449 | returns the first matching node, or null if there is none |
| ListOps.CoreListReverse | testler/coremark/core_list_join.c:464-476 | relinks in place to the reverse order, changing no link outside the list |
| ListOps.CoreListRemove | testler/coremark/core_list_join.c:376-389 | for any item but the last: swaps its cell with the next node's and unlinks and returns that node |
| ListOps.CoreListUndoRemove | testler/coremark/core_list_join.c:407-419 | links the removed node back behind the modified one and swaps their cells |
| ListOps.RemoveUndone | testler/coremark/core_list_join.c:376-419 | remove of any item but the last, followed by its undo, is the identity on all links and cell pointers |
| ListFinds.FindTurn | testler/coremark/core_list_join.c:173-202 | one find keeps exactly the nodes of the list, whether it hits or misses |
| ListFinds.MovedLinks | testler/coremark/core_list_join.c:188-195 | unlinking the node behind the found one and linking it in behind the head gives the rearranged acyclic list |
| ListFinds.FindOnce | testler/coremark/core_list_join.c:173-202 | one turn of the find loop: list order, result, hit and miss counts and next index are those of the model turn, links outside the list untouched |
| ListFinds.FindPhase | testler/coremark/core_list_join.c:161-203 | all the finds, for any count and either sign of the index: the value is, on 16 bits, four times the hits, minus the misses, plus the used bits, told by list and probes; the index is the one behind the last turn, the low byte that of the last turn |
| ListFinds.FindsCounted | testler/coremark/core_list_join.c:170-202 | after n turns the counters hold, on 16 bits: as hits the turns whose index (or low byte, once it is negative) some node of the list has, in whatever order; as misses the others; as value the bits of the turns, bit 9 of the first match if that is odd, bit 8 of the node behind the reversed head for a miss |
| ListFinds.PresentFound | testler/coremark/core_list_join.c:173-178 | a find hits exactly if the list has the value at all, so hits do not depend on the order the finds before have left |
| ListFinds.AllFound | testler/coremark/core_list_join.c:161-203 | n finds that all hit in a list of even words score 4n |
| ListFinds.NoneFound | testler/coremark/core_list_join.c:161-203 | n finds that all miss in a list of words with bit 8 clear score -n |
| ListFinds.MovedAt | testler/coremark/core_list_join.c:188-195 | place by place: the head stays, the cached node comes second, those up to the found one move back by one |
| ListBench.FindAndSort | testler/coremark/core_list_join.c:161-206 | first half of the benchmark: the list order is the stable order of the found order by the values the touched cells have, and data, text and CRCs are those of touching the list in the found order; the value is the score of the finds |
| ListBench.SortEvolves | testler/coremark/core_list_join.c:204-206 | whatever the operations do, the sort by data keeps every backup byte and every cell outside the list |
| ListBench.RemoveAndUndo | testler/coremark/core_list_join.c:207-221 | removing the second item, folding the CRC from the probe on and undoing the removal restores every link and cell pointer |
| ListBench.NodesCounted | testler/coremark/core_list_join.c:210-218 | the first CRC loop takes one turn for every node that matches the last probe or comes behind one that does, or without a match for every node but the head |
| ListBench.BenchMessage | testler/coremark/core_list_join.c:203-235 | the returned value is the CRC, started from the score of the finds, of the head's word after the sort by data once for each of those nodes, and the head's word after the sort by index once for each other node |
| ListBench.OrderRestored | testler/coremark/core_list_join.c:222-223 | sorting any rearrangement of an index-sorted list by index gives its order back exactly if the rearrangement has kept nodes of equal index in their order |
| ListBench.LinksRestored | testler/coremark/core_list_join.c:222-223 | two lists of the same nodes with the same links outside have the same link field everywhere exactly if their order is the same |
| ListBench.DataRestored | testler/coremark/core_list_join.c:136-140 | every data word changed by the sort by data is rebuilt from its backup byte |
| ListBench.CoreBenchList | testler/coremark/core_list_join.c:158-235 | for an index-sorted list of at least 3 nodes whose data equal their backups, any seeds, number of finds and finder index: every cell pointer and data word is afterwards exactly as before, the list has the same nodes in the stable order by index, no link outside has changed, and all links are the old ones exactly if nodes of equal index came through finds and sort by data in order; state text and CRCs are those the sort by data leaves, and the value is that of `BenchValue`, which `BenchMessage` spells out |
| ListBench.AlwaysBack | testler/coremark/core_list_join.c:156-235 | the order comes back for every number of finds and every finder index exactly if no index occurs twice |
| ListBench.AlwaysBackData | testler/coremark/core_list_join.c:156-235 | the same for the finder index -1 alone, if there is a byte that no data word has |
| ListBench.OneFindReverses | testler/coremark/core_list_join.c:173-202 | one find with the finder index 0 turns round every pair of nodes of equal index, and no sort by data follows |
| ListInit.CoreListInsertNew | testler/coremark/core_list_join.c:335-360 | takes the next node and cell if both are left and links the node in behind the given one; otherwise returns null and changes nothing |
| ListInit.BlockFits | testler/coremark/core_list_join.c:254-260 | nodes and cells of the computed number fit the block, in which 20 bytes each would leave room for two more but not for three |
| ListInit.ItemData | testler/coremark/core_list_join.c:281-285 | every item holds the same 7-bit pattern in both bytes |
| ListInit.ItemBits | testler/coremark/core_list_join.c:281-285 | bits 0 to 2 of an item are those of its number, bits 3 to 6 those of seed and number exclusive-ored, bit 7 is clear, and the upper byte is the same |
| ListInit.EndNodes | testler/coremark/core_list_join.c:263-275 | head and sentinel are cached from the start, with the least and the greatest value there is |
| ListInit.NodeData | testler/coremark/core_list_join.c:270-285 | the data of head, sentinel and items equal their backup byte |
| ListInit.MixedIndex | testler/coremark/core_list_join.c:298-302 | a mixed index lies in 0 .. 0x3fff |
| ListInit.BuildList | testler/coremark/core_list_join.c:263-288 | builds an acyclic list of exactly size-1 nodes, node x on cell x, each with the data the seed gives it |
| ListInit.IndexList | testler/coremark/core_list_join.c:289-305 | gives every node between head and sentinel the index of its place and changes nothing else |
| ListInit.CoreListInit | testler/coremark/core_list_join.c:250-319 | an acyclic list of exactly size-1 nodes inside the node region, on distinct cells inside the data region, each with the data and index of its place, sorted stably by index |
| ListInit.HeadFirstIff | testler/coremark/core_list_join.c:294-306 | the original head is first after the sort, even if another index is 0, exactly while size/5 <= 0x8000; then the 0x7fff sentinel is last |
| ListInit.CanonicalIff | testler/coremark/core_list_join.c:250-319 | the built list is in the state the benchmark restores exactly when its size and seed give no index twice |
| ListInit.MixedParts | testler/coremark/core_list_join.c:298-302 | a mixed index is the low bytes of place and seed, exclusive-ored, and above them six bits of the next place, the place and the seed |
| ListInit.EvenPlaces | testler/coremark/core_list_join.c:298-302 | an even place and the one 256 behind it get the same mixed index from every seed if bit 8 of the place is clear |
| ListInit.DistinctIndices | testler/coremark/core_list_join.c:289-305 | for every size and seed: no index occurs twice exactly if the list has at most 322 items and no mixed index falls among those in order |
| CoreIterate.ListTurn | testler/coremark/core_main.c:127-130 | one list benchmark and its fold: the list the head pointer then sees, text and CRCs are those of one turn, in which at least 3 nodes stay behind the head |
| CoreIterate.IterateOnce | testler/coremark/core_main.c:127-130 | two such turns, the second from what the first left |
| CoreIterate.IterateStep | testler/coremark/core_main.c:125-133 | the loop body: one more round, and the CRC is recorded as list CRC in the first iteration only |
| CoreIterate.Iterate | testler/coremark/core_main.c:113-135 | for an index-sorted list with two nodes above the head, any seeds and any number of iterations: cell pointers, data words, matrices A and B and the list head are at the end what they were at the start, no link outside the list has changed; list order, text, CRC and the list, matrix and state CRCs are those of that many rounds from cleared CRCs; the links are the old ones exactly if the order is, and always without a repeated index |
| CoreIterate.TurnReady | testler/coremark/core_list_join.c:222-234 | the list the head pointer sees after a benchmark is sorted, keeps at least 3 nodes and has no new one, though a node of equal index may have moved in front of the head |
| CoreIterate.HeadOvertaken | testler/coremark/core_list_join.c:173-202 | if another node has the index of the head, one find with the finder index 0 puts it in front, and the head pointer sees a shorter list |
| CoreIterate.CanonicalRounds | testler/coremark/core_main.c:125-133 | without a repeated index the order is the same after any number of rounds |
| CoreIterate.RecordsStay | testler/coremark/core_main.c:121-133 | from the end of the first iteration on the list CRC stays, and so do matrix and state CRC once they are not 0 |
| CoreCrc.TouchesFold | testler/coremark/core_list_join.c:69-114 | touching cells folds in the results of the uncached ones, in order |
| CoreCrc.TurnFolds | testler/coremark/core_main.c:127-130 | one benchmark folds in the results of its sort by data and then its value |
| CoreCrc.RunCrc | testler/coremark/core_main.c:113-135 | the CRC after any number of iterations is the CRC of all these words in order, each low byte first, from the one the run starts with |
| CoreCrc.ListCrc | testler/coremark/core_main.c:131-133 | from the first iteration on the list CRC on record is the CRC behind that iteration |
| CoreText.RunText | testler/coremark/core_main.c:113-135 | the text after any number of iterations is the initial one swept with the steps the run has started |
| CoreText.RunStepsIn | testler/coremark/core_list_join.c:69-114 | a run of at least one iteration uses exactly the steps of the uncached cells of its list that ask for the state benchmark |
| CoreText.TextBack | testler/coremark/core_main.c:113-135 | for any masks and number of iterations: the text comes back exactly if every byte does after as many sweeps as the run makes over it |
| CoreText.EqualMasksBack | testler/coremark/core_main.c:113-135 | for equal masks and at least one iteration: the text comes back exactly if every step the list asks for gives it back |
| CoreText.CanonicalTextBack | testler/coremark/core_main.c:113-135 | for a list without repeated index, any masks and number of iterations, how often each byte is swept is that number times the nodes that ask for it, and the text comes back exactly if every byte survives that |
| CoreMain.StandardRuns | testler/coremark/core_main.c:217-231 | the seeds of the performance, validation and profile run qualify for restoration: the text of any size is reversible, and lists of up to 322 items, for the profile run up to 39, have no index twice |
| CoreMain.ItemSteps | testler/coremark/core_list_join.c:281-285 | an item asks for the state benchmark exactly at multiples of 8, with 17 times the low seed bits at multiples of 16, and with bit 3 turned over in between, at least 0x22 |
| CoreMain.InitAsks | testler/coremark/core_list_join.c:281-285 | an initialized list asks for exactly those two steps, the second one from 12 items on |
| CoreMain.TextNotBack | testler/coremark/core_state.c:77-103 | with seed 44 and 205 bytes, a block of 8 items, the step is 204 and one of the two conditions fails: the last NUL becomes a comma and stays one |
| CoreMain.PreparedReady | testler/coremark/core_main.c:289-310 | whatever the seeds, the benchmarks can be run on what the set-up makes: A holds 16-bit values and no scan ever leaves the text |
| CoreMain.MatrixSeedBits | testler/coremark/core_main.c:299-303 | bit by bit the seed of the matrices is the first seed, sign-extended, or the second one from bit 16 on |
| CoreMain.ListReady | testler/coremark/core_list_join.c:250-319 | every freshly initialized list of at least 3 nodes can be run: it is sorted by index, and two nodes lie above the head |
| CoreMain.InitAlwaysBack | testler/coremark/core_main.c:127-130 | an initialized list comes back from the second benchmark of an iteration for every seed3 exactly if its size and seed give no index twice |
| CoreMain.SetUp | testler/coremark/core_main.c:289-310 | list, matrices and text are set up with disjoint memory, each as its initializer promises, and the result record holds the seeds and the number of iterations |
| CoreMain.SetUpAndIterate | testler/coremark/core_main.c:289-310 | end to end, in any block of at least 4 items, for any seeds and number of iterations: the cells are at the end the ones the set-up made, the matrices too; order, text and CRCs are those of that many rounds from the initial ones; the links come back exactly if the order does, always without a repeated index; with equal low seed bytes the text comes back from one or more iterations exactly if the two steps of the list give it back |
| StateScan.CharacterCodes | testler/coremark/core_state.c:197-203 | the characters the machine tells apart, written out |
| StateScan.Switch | testler/coremark/core_state.c:230-326 | one turn of the switch: next state and counters |
| StateScan.CoreStateTransition | testler/coremark/core_state.c:216-330 | one call: it stops where the scan does, in the state of the text it has read, and has added to the counters, told by the states of the prefixes of that text: for S1, INT, FLOAT, S2 and EXPONENT the places where the state is left, for START the read there, for INVALID one if the text is spoiled by its first byte or in the digits of its exponent, for SCIENTIFIC nothing |
| StateScan.WholeCounts | testler/coremark/core_state.c:216-330 | the same of the scan |
| StateScan.RunCounts | testler/coremark/core_state.c:65-76 | over a whole run: each final count is the number of tokens that end in the state, and each counter what it counts in all tokens of the text |
| StateScan.AllFlow | testler/coremark/core_state.c:65-76 | in all tokens of a text every state but the first is left or ended in as often as it is entered |
| StateScan.RunBalance | testler/coremark/core_state.c:65-76 | over a whole run, for S1, INT, FLOAT, S2 and EXPONENT: counter and final count together gain how often the state is entered |
| StateScan.Scan | testler/coremark/core_state.c:222-327 | stops at or before the terminator, passes no NUL, and from a non-NUL position advances by at least one byte |
| StateScan.StateIsLanguage | testler/coremark/core_state.c:230-326 | the machine is in a state exactly for the texts of its regular language: int, float, float with exponent and so on |
| StateScan.TokenClass | testler/coremark/core_state.c:216-330 | one call consumes a number with its comma and names its language, or consumes up to the first character that spoils it and answers invalid |
| StateScan.RunConserves | testler/coremark/core_state.c:66-75 | over a whole run track[START] + final[START] is the sum of the final counts, and track[SCIENTIFIC] is 0 |
| StateBench.CorruptAt | testler/coremark/core_state.c:77-83 | the sweep changes exactly the bytes at multiples of the step that are not commas |
| StateBench.RestoredIff | testler/coremark/core_state.c:77-103 | corrupting and undoing gives the text back exactly when every sampled byte is a comma, or the masks agree and are 0 or turn none of them into a comma |
| StateBench.SweptAllBack | testler/coremark/core_state.c:77-103 | any number of benchmarks with any steps and masks gives the text back exactly when every byte changed is a comma, or survives: for equal masks it does not become a comma, for different ones it is changed an even number of times and neither mask nor both make it one |
| StateBench.SweptBack | testler/coremark/core_state.c:77-103 | for equal masks they do exactly when each of them alone does |
| StateBench.OutOfReach | testler/coremark/core_state.c:77-103 | the steps are multiples of 17, so no sequence of sweeps changes a byte at any other position |
| StateBench.KeepsTerminator | testler/coremark/core_state.c:65-103 | a NUL at such a position keeps the scans of all further benchmarks inside the text, for any masks |
| StateBench.StaysScannableNext | testler/coremark/core_state.c:45-111 | a text that stays scannable does so after one more benchmark |
| StateBench.StillTerminated | testler/coremark/core_state.c:77-95 | with two NULs at the end a sweep with step >= 2 leaves one |
| StateBench.Sweep | testler/coremark/core_state.c:77-103 | the corruption loop in place |
| StateBench.ScanText | testler/coremark/core_state.c:65-76 | the scan loop over the whole text adds up the counts |
| StateBench.CrcCounts | testler/coremark/core_state.c:105-109 | the CRC of both count tables, interleaved, each count as 32 bits |
| StateBench.CrcOfImage | testler/coremark/core_state.c:105-109 | the CRC of the tables is that of their 64 bytes: entry by entry, final count before transition count, each lowest byte first |
| StateBench.StateCrcMeans | testler/coremark/core_state.c:45-111 | the value returned is the CRC of that image, and the tables hold the counts of the text and of the corrupted text added up |
| StateBench.CoreBenchState | testler/coremark/core_state.c:45-111 | the returned CRC is that of the two scans, and the text is corrupted and undone as the sweeps say |
| StateBench.InitText | testler/coremark/core_state.c:139-195 | the text has exactly the block size and, from size 2 on, ends in two NULs |
| StateBench.InitBody | testler/coremark/core_state.c:150-185 | the patterns written leave room for the terminators |
| StateBench.CoreInitState | testler/coremark/core_state.c:139-195 | fills the block with the patterns of the successive seeds, commas between, zeros behind |
| StateBench.PatternKinds | testler/coremark/core_state.c:152-172 | the low three bits of a seed choose the language of its pattern: integer, number with a point, scientific notation, or the beginning of no number |
| StateBench.InitTextPatterns | testler/coremark/core_state.c:139-195 | an initialized text is the patterns of the seeds from seed + 1 on, as many as leave at least two bytes free, each with its comma, and zeros |
| StateBench.InitTextRestored | testler/coremark/core_state.c:77-103 | an initialized text is restored for every step if the mask is 0 or turns the comma into a byte outside the pattern alphabet |
| StateBench.InitTextScannable | testler/coremark/core_state.c:65-96 | neither scan leaves an initialized text of at least 2 bytes with a step of at least 2 |
| StateBench.InitTextStaysScannable | testler/coremark/core_state.c:65-103 | whatever the seeds, no benchmark in any run of them scans past the end of an initialized text of at least 2 bytes |
| StateBench.ScientificPatterns | testler/coremark/core_state.c:120-123 | of the four scientific patterns exactly the third, -87e+832, is not in the language of the scientific state, nor the beginning of any number |
| StateBench.SpoiledPattern | testler/coremark/core_state.c:216-330 | where it stands in a text one call stops behind its e and answers invalid, and the next reads the rest as an integer |
| StateBench.EmptyBlockOverrun | testler/coremark/core_state.c:148-155 | with an empty block the size wraps around and patterns are written where there is no room |
| StateBench.StandardSeeds | testler/coremark/core_state.c:77-103 | the masks of the validated seeds 0, 0x3415 and 8 have that property |
| Crc.CrcU8 | testler/coremark/core_util.c:164-188 | the bit loop is eight register steps of the reflected CRC |
| Crc.CrcU16 | testler/coremark/core_util.c:189-195 | the CRC of the two bytes, low byte first |
| Crc.Crc16 | testler/coremark/core_util.c:203-207 | the same for a signed half word |
| Crc.CrcU32 | testler/coremark/core_util.c:196-202 | the CRC of the four bytes, lowest first |
| Crc.CrcOfAppend | testler/coremark/core_util.c:164-207 | the CRC of a concatenation continues from the CRC of its first part |
| Crc.CrcLinear | testler/coremark/core_util.c:164-188 | linear over exclusive or, in message and initial register together |
| Crc.CrcBijective | testler/coremark/core_util.c:164-188 | for a fixed message a bijection of the initial register |
| Crc.FeedAsRegister | testler/coremark/core_util.c:164-188 | up to 16 message bits act as if they had been added to the register first |
| Crc.FoldIs | testler/coremark/core_util.c:189-195 | folding a half word in is exclusive-oring it with the register and feeding 16 zero bits |
| Crc.StartsDiffer | testler/coremark/core_util.c:164-188 | the CRCs of one message from two starts differ by what zero bits make of the difference of the starts |
| Crc.Unchanged | testler/coremark/core_util.c:164-188 | for every k, 2^k zero bits leave exactly two registers unchanged: 0 and 0xc001 |
| Crc.FoldCollides | testler/coremark/core_util.c:164-195 | a CRC of 2^k bits folded into its own start is the same from two starts exactly if they are equal or differ by 0xc001 |
| Crc.BurstDetected | testler/coremark/core_util.c:164-188 | two different messages of one length that differ only within 16 consecutive bits have different CRCs |
| Crc.RegisterDivides | testler/coremark/core_util.c:164-188 | the register performs long division by x^16 + x^15 + x^2 + 1, its feedback decisions being the quotient |
| Crc.CrcIsRemainder | testler/coremark/core_util.c:164-188 | the register is the one and only remainder of message * x^16 + register * x^(message length) by the generator |
| Matrix.MatrixAddConst | testler/coremark/core_matrix.c:284-295 | adds the constant to every entry in 16-bit arithmetic, entry by entry |
| Matrix.MatrixMulConst | testler/coremark/core_matrix.c:268-279 | C is A times the constant |
| Matrix.MatrixMulVect | testler/coremark/core_matrix.c:302-314 | the first N entries of C are the products of the rows of A with the first N entries of B, the other entries stay |
| Matrix.MatrixMulMatrix | testler/coremark/core_matrix.c:321-336 | every entry of C is the wrapped sum of products of row and column |
| Matrix.DotSingle | testler/coremark/core_matrix.c:321-336 | times a matrix with the single entry v at (p, q), A leaves v times its column p in column q and nothing elsewhere |
| Matrix.DotAdditive | testler/coremark/core_matrix.c:321-336 | the product is additive in its second factor, so single entries settle it |
| Matrix.VectorIsColumn | testler/coremark/core_matrix.c:302-314 | the vector product is the matrix product with any matrix that has row 0 of B as a column |
| Matrix.MatrixMulMatrixBitextract | testler/coremark/core_matrix.c:343-359 | the same with the bit-field product of each term |
| Matrix.ExtractBits | testler/coremark/core_matrix.c:49-49 | the bit-field product, bit by bit: the four bits from bit 2 on times the seven from bit 5 on |
| Matrix.ExtractSingle | testler/coremark/core_matrix.c:343-359 | times a matrix with a single entry: what the bit fields of the products with that entry give, in its column |
| Matrix.MatrixSum | testler/coremark/core_matrix.c:237-262 | the clipped accumulation, in 16 bits |
| Matrix.SumCounts | testler/coremark/core_matrix.c:237-262 | told by places of the row-by-row entries: ten for each at which the wrapped sum behind the last such place is above the limit, and one for each other that is larger than the one in front |
| Matrix.AllClip | testler/coremark/core_matrix.c:237-262 | with a negative limit a matrix without negative entries gives 10 * N * N |
| Matrix.BigMeans | testler/coremark/core_matrix.c:48-48 | the limit lies in -4096 .. -1 and keeps the low twelve bits of the value |
| Matrix.AddConstUndone | testler/coremark/core_matrix.c:135-160 | adding a constant and its negation restores every 16-bit matrix, wrap-around included |
| Matrix.MatrixTest | testler/coremark/core_matrix.c:129-162 | A and B are afterwards as before, and the result is the CRC of the four sums |
| Matrix.TestMessage | testler/coremark/core_matrix.c:129-162 | the CRC is that of the four sums in a row: times the constant, vector product, matrix product, bit-field product |
| Matrix.CoreBenchMatrix | testler/coremark/core_matrix.c:91-103 | restores A and B and returns the CRC of the matrix test |
| Matrix.DotBound | testler/coremark/core_matrix.c:332-332 | no partial sum of the product leaves N * 510 * 2^15 |
| Matrix.ProductsExact | testler/coremark/core_matrix.c:302-336 | for A up to 510, B any 16-bit value and N up to 128 no product and no partial sum overflows, so matrix product and vector product are the exact integer products |
| MatrixInit.ChooseDimension | testler/coremark/core_matrix.c:189-196 | N is the largest number with 8*N*N < blksize, and 2^32 - 1 for an empty block |
| MatrixInit.SearchOverruns | testler/coremark/core_matrix.c:191-195 | above 8*23170*23170 bytes the 32-bit product wraps and the search passes the largest dimension that fits |
| MatrixInit.LayoutFits | testler/coremark/core_matrix.c:197-217 | A, B and C follow one another without overlap; they stay inside the block exactly when what alignment skips still leaves room, as a 4-aligned block always does |
| MatrixInit.UnalignedOverrun | testler/coremark/core_matrix.c:197-217 | a 9-byte block at address 1: C ends past the block |
| MatrixInit.EntryRanges | testler/coremark/core_matrix.c:204-210 | entries of A lie in 0 .. 255, entries of B in the 16-bit range |
| MatrixInit.NextEntries | testler/coremark/core_matrix.c:204-211 | one turn of the fill loop: the seed moves on and the two entries are those of its place |
| MatrixInit.EntriesClosed | testler/coremark/core_matrix.c:200-213 | in closed form: entry number k of B is k! times the seed plus k on 16 bits, that of A the same plus k on 8 |
| MatrixInit.SeedForgotten | testler/coremark/core_matrix.c:200-213 | from entry 18 on the seed plays no part: B holds the number of the entry and A twice that |
| MatrixInit.FillMatrices | testler/coremark/core_matrix.c:200-213 | the fill loops give every entry its value, in row order |
| MatrixInit.BenchmarkExact | testler/coremark/core_matrix.c:135-150 | with at most 133128 bytes and a constant of 0 .. 255 neither the additions nor any product or partial sum wraps, and matrix product and vector product are exact |
| Barrier.Always | testler/uart-donut/util.h:44-62 | the invariant holds after every interleaving of any number of threads and episodes |
| Barrier.Safety | testler/uart-donut/util.h:44-62 | no thread leaves its k-th barrier before every thread has done its k-th fetch-and-add, and none gets an episode ahead |
| Barrier.CountIsArrivals | testler/uart-donut/util.h:53-56 | count is the number of arrivals of the current episode until the last arrival resets it |
| Barrier.ReleaseIsStable | testler/uart-donut/util.h:56-59 | the wake-up condition of a released waiter stays true until it leaves |
| Barrier.Progress | testler/uart-donut/util.h:53-59 | some thread can always move, and a blocked one waits for a thread that can move |
| Barrier.MoveExists | testler/uart-donut/util.h:53-59 | a thread that can move has an enabled step that changes the state |
| Barrier.Throughput | testler/uart-donut/util.h:44-62 | after m steps that change something every thread has left at least m/(5n) - 2 barriers |
| NumberFormat.TakeSign | testler/dhrystone/ee_printf.c:114-133 | takes the sign the flags ask for, makes room for it and leaves the magnitude |
| NumberFormat.FillDigits | testler/dhrystone/ee_printf.c:143-154 | the digits of the number read as unsigned, lowest first, at most 32 of them, inside tmp |
| NumberFormat.Emit | testler/dhrystone/ee_printf.c:156-186 | padding, sign, prefix, precision zeros and digits go out in the order and places the flags say |
| NumberFormat.Pad | testler/dhrystone/ee_printf.c:159-161 | writes exactly the characters still missing |
| NumberFormat.Number | testler/dhrystone/ee_printf.c:99-187 | gives up on a base outside 2 .. 36; otherwise appends exactly the laid-out text: blanks, sign, prefix, zeros and digits where the flags say |
| NumberFormat.NumberMeaning | testler/dhrystone/ee_printf.c:99-187 | the text has max(size, sign + prefix + max(digits, precision)) characters, its digits evaluate in the base to the magnitude, without leading zeros, and 32 places suffice |
| NumberFormat.SkipAtoi | testler/dhrystone/ee_printf.c:90-97 | stops at the first character that is no digit and returns the spelled number in 32-bit arithmetic |
| NumberFormat.PrintedReadsBack | testler/dhrystone/ee_printf.c:90-187 | whatever the width, precision and flags, a decimal field reads back as the number printed, the most negative one included |
| NumberFormat.TextReads | testler/dhrystone/ee_printf.c:77-78 | printed digits, read character by character, are worth their number in any base up to 36, in letters of the one case asked for |
| FormatString.ReadDirective | testler/dhrystone/ee_printf.c:531-591 | flags, width, precision and qualifier, with the cursor never past the NUL |
| FormatString.Parse | testler/dhrystone/ee_printf.c:531-591 | the cursor moves on and stays within the format, the precision is at least -1 |
| FormatString.Strnlen | testler/dhrystone/ee_printf.c:81-88 | the length of a string, or the count if that is smaller |
| FormatString.EmitString | testler/dhrystone/ee_printf.c:607-619 | as much of the string as the precision allows, in a field of blanks on the side the flags say |
| FormatString.EmitPadded | testler/dhrystone/ee_printf.c:607-619 | text in a field of blanks on the side the flags say |
| FormatString.Ethernet | testler/dhrystone/ee_printf.c:189-205 | six bytes as hexadecimal pairs between colons |
| FormatString.Internet | testler/dhrystone/ee_printf.c:218-250 | four bytes in decimal between dots |
| FormatString.EmitByte | testler/dhrystone/ee_printf.c:231-249 | the case distinction writes exactly the decimal digits of the byte |
| FormatString.VSprintf | testler/dhrystone/ee_printf.c:507-707 | terminates for every format and argument list, writes the output of its literal characters and directives in order (`PrintedFields` says what each prints), and returns its length |
| FormatString.LiteralCopied | testler/dhrystone/ee_printf.c:523-529 | a stretch without % is copied unchanged, whatever surrounds it |
| FormatString.CutOff | testler/dhrystone/ee_printf.c:685-692 | a directive cut off by the end of the format prints a lone % and ends the run |
| FormatString.FieldFillsWidth | testler/dhrystone/ee_printf.c:596-702 | every known conversion fills its width |
| FormatString.DecimalFieldReadsBack | testler/dhrystone/ee_printf.c:665-702 | a %d or %i field reads back as its argument, whatever stands between |
| FormatString.LengthIsSum | testler/dhrystone/ee_printf.c:705-706 | the return value is the sum of the lengths of the fields and literal characters |
| PrintedFields.DirectiveReads | testler/dhrystone/ee_printf.c:531-591 | a directive is its %, a whole run of flag characters, each setting its flag, a width, a precision and a qualifier, one behind the other; digits are read as a number, and one argument is used for each * |
| PrintedFields.DirectiveGoesOn | testler/dhrystone/ee_printf.c:523-702 | output goes on behind the conversion character, with one argument used for each * and one for a conversion that takes one |
| PrintedFields.NumberField | testler/dhrystone/ee_printf.c:99-187 | a number field is blanks, sign, prefix, digits, blanks: blanks only on the side the flags say and only up to the width, leading zeros only for the precision or, with the zero flag, up to the width |
| PrintedFields.IntegerField | testler/dhrystone/ee_printf.c:622-702 | what d, i, u, o, x, X and p print: digits that are worth the argument in base 10, 8 or 16, in lower case but for X, behind - or the + or blank asked for, and behind 0x or 0 for #; width, precision and sides as the flags say; 8 digits for a bare p |
| PrintedFields.TextField | testler/dhrystone/ee_printf.c:598-619 | c and s print the character, or the string cut to the precision, in a field of blanks on the side the flag says, no wider than asked |
| PrintedFields.AddressField | testler/dhrystone/ee_printf.c:189-250 | a and A print six bytes as hexadecimal pairs between colons with l, four in decimal without leading zeros between dots without, in the case asked for |
| PrintedFields.OtherField | testler/dhrystone/ee_printf.c:685-692 | %% prints one percent sign, and an unknown conversion prints itself |
| WordStrings.ZeroTestExact | testler/dhrystone/stdlib.c:57-57 | the word test is non-zero exactly when one of the four bytes is zero |
| WordStrings.AlignedParts | testler/dhrystone/stdlib.c:46-46 | the mask test holds exactly if both addresses are multiples of 4 |
| WordStrings.StrCpy | testler/dhrystone/stdlib.c:42-82 | for every pair of alignments: exactly the bytes up to and including the first NUL are copied, nothing else changes, the destination is returned |
| WordStrings.CopyWords | testler/dhrystone/stdlib.c:53-81 | the word loop, entered after any number of bytes, completes the copy and writes no byte beyond the NUL |
| WordStrings.ByteCompareMeaning | testler/dhrystone/stdlib.c:224-235 | the byte loop answers 0 for equal strings only, and -1 exactly if the first precedes the second in dictionary order of unsigned bytes |
| WordStrings.StrCmp | testler/dhrystone/stdlib.c:224-272 | for every pair of alignments the answer of the byte loop |
| WordStrings.CompareBytes | testler/dhrystone/stdlib.c:242-264 | two different words are told apart by their first differing byte, unless both strings end before |
| WordStrings.MemCpy | testler/uart-donut/syscalls.c:379-393 | word path and byte path copy the same bytes and change nothing else |
| WordStrings.MemSet | testler/uart-donut/syscalls.c:395-412 | word path and byte path fill the same bytes and change nothing else |
| Syscalls.CollectDigits | testler/uart-donut/syscalls.c:159-168 | the digits of a 64-bit number in any base up to 36, one 0 for zero, inside 64 places |
| Syscalls.PrintNum | testler/uart-donut/syscalls.c:156-175 | padding in front, then the digits, at the cursor |
| Syscalls.NumTextMeans | testler/uart-donut/syscalls.c:156-175 | padding up to the width, then digits that are worth the number in any base up to 36, in lower case, without leading zeros |
| Syscalls.GetIntMeans | testler/uart-donut/syscalls.c:187-195 | an argument of 32 bits comes through as it is, a longer one only with two l |
| Syscalls.PrintDecimal | testler/uart-donut/syscalls.c:295-332 | for int, long and long long arguments: a minus sign, then padding, then the digits of the magnitude, widened to 64 bits before it is negated |
| Syscalls.SprintfDecimal | testler/uart-donut/syscalls.c:359-377 | the text of one signed conversion with its width and padding, its NUL, and its length |
| Syscalls.Atol | testler/uart-donut/syscalls.c:450-469 | skips blanks, takes a sign, and reads every character to the end as a digit in 32-bit arithmetic |
| Syscalls.AtolOfPadded | testler/uart-donut/syscalls.c:450-469 | what a printed number is read as, for every width and padding character: behind a sign padding counts as digits, and the first dash as a sign |
| Syscalls.AtolOfDecimal | testler/uart-donut/syscalls.c:296-332 | printing and parsing returns the number (its low 32 bits if it is longer) exactly if nothing is padded, or zeros are, or blanks before a number without sign; or dashes whose surplus happens to be the flipped sign modulo 2^32 |
| Syscalls.SurplusWhole | testler/uart-donut/syscalls.c:450-469 | blanks or dashes taken for digits never cancel modulo 2^32, in up to 20 digits |
| Syscalls.PlainDecimal | testler/uart-donut/syscalls.c:359-377 | without a width every number is read back, and 12 characters hold every 32-bit number |
| Syscalls.PrintThenParse | testler/uart-donut/syscalls.c:359-469 | through a buffer, for any width, padding and length flag: atol returns what sprintf printed under exactly that condition |
| Syscalls.DashPadding | testler/uart-donut/syscalls.c:225-228 | the - flag, described as padding on the right, puts minus signs between sign and digits; the text is the documented one exactly if the width is at most the number of digits |
| Syscalls.DashPads | testler/uart-donut/syscalls.c:225-228 | for example 7 in two places is printed as -7 and read as -7 |
| Mandelbrot.StepStays | testler/uart-mandelbrot/donut.c:71-75 | a point that passes the escape test has a successor small enough to square in 32 bits |
| Mandelbrot.Iterate | testler/uart-mandelbrot/donut.c:59-78 | for coordinates up to 13570 no product or sum leaves 32 bits, and the result is the first index outside, or 64 |
| Mandelbrot.EscapeUnique | testler/uart-mandelbrot/donut.c:66-77 | there is only one such index |
| Mandelbrot.OverflowBeyond | testler/uart-mandelbrot/donut.c:68-69 | beyond the bound it fails: a point that passes three tests and then has a square above 32 bits |
| Mandelbrot.GridWithin | testler/uart-mandelbrot/donut.c:94-106 | every grid point lies between the two ends, in either direction |
| Mandelbrot.TruncDivMeans | testler/uart-mandelbrot/donut.c:94-95 | the quotient has the sign of the dividend and reaches it towards zero as closely as a multiple can |
| Mandelbrot.OrbitSquares | testler/uart-mandelbrot/donut.c:66-75 | each point is the complex square of the one before plus the constant, to less than a unit |
| Mandelbrot.OutsideMeans | testler/uart-mandelbrot/donut.c:71-72 | the test is for a modulus above 2, to two units of the squares |
| Mandelbrot.OriginStays | testler/uart-mandelbrot/donut.c:59-78 | the origin has the index 64 |
| Mandelbrot.MandCalc | testler/uart-mandelbrot/donut.c:89-108 | image[k] is the escape index of the point k % hres steps right of the left edge and k / hres steps below the top, the steps being the truncated quotients; nothing behind hres * vres changes |
| CoeImage.DataLine | testler/coremark/vhtocoe.py:54-67 | a line of bytes, partial or not, appends its words, and the address moves by its bytes |
| CoeImage.FillGap | testler/coremark/vhtocoe.py:48-52 | a gap appends a word of zeros for every four bytes, and the address moves on unless there is none |
| CoeImage.Words | testler/coremark/vhtocoe.py:57-67 | as many words as the bytes reach into: the count is their number divided by 4, rounded up |
| CoeImage.ConvertLine | testler/coremark/vhtocoe.py:27-67 | one line of any kind in any state: address, mode flags, buffer and file are those of the step function |
| CoeImage.Convert | testler/coremark/vhtocoe.py:22-72 | for any lines: which files are written, and that they list the words the lines step by step leave |
| CoeImage.SectionImage | testler/coremark/vhtocoe.py:27-67 | lines with aligned increasing addresses, and partial words only at the end of a section, make exactly the words of their image |
| CoeImage.LoadedImage | testler/coremark/vhtocoe.py:27-67 | that image holds at i the byte loaded at base + i, zero where nothing is loaded, and nothing is loaded outside |
| CoeImage.WordIsLoaded | testler/coremark/vhtocoe.py:57-67 | word k of the file is made of the bytes loaded at the four addresses from base + 4k on, last one first |
| CoeImage.BothImages | testler/coremark/vhtocoe.py:22-72 | two sections at the base addresses: both files hold exactly the images of the two memories |
| CoeImage.OneImage | testler/coremark/vhtocoe.py:36-72 | without a line for the data memory no instruction memory file is written, and its image goes to the other file |
| CoeImage.NothingOpened | testler/coremark/vhtocoe.py:31-35 | as long as no line has the instruction memory's address gaps are not filled: the words of all lines follow one another |
| CoeImage.OpenedLate | testler/coremark/vhtocoe.py:31-52 | lines in front of the instruction memory's address, the data memory's with its data among them, keep their words in front of the image |
| CoeImage.BothFiles | testler/coremark/vhtocoe.py:22-72 | so they come first in the instruction memory's file, and the other file has the image behind the next data memory address |
| CoeImage.Overwritten | testler/coremark/vhtocoe.py:36-46 | a second line with the data memory's address replaces the instruction memory's file by the data in between |
| CoeImage.WordLittleEndian | testler/coremark/vhtocoe.py:57-67 | read as a hexadecimal number, word k has byte 4k as its lowest |
| CoeImage.CoeReadsBack | testler/coremark/vhtocoe.py:4-72 | a finished file names the radix 16 that its words are written in, and read as a list up to its semicolon it holds exactly the words |

## Left out

- Memory as one address space: list block, state text and matrices are separate objects, which stands for the disjoint blocks `main` hands out; pointers to list nodes and cells are numbers, and nodes are not Dafny objects.
- Counter widths: the state counters and `passes` are unbounded and reduced modulo 2^32 where the CRC takes them; `insize` stays below twice the number of nodes by the bound on passes, so it cannot overflow for a list that fits 32-bit memory.
- CoreIterate.Iterate: asks that two nodes of the list lie above the head, as they do in every initialized list (`CoreMain.ListReady`), so that three are left when the head has lost nodes of equal index; and that no scan ever leaves the state text, which `StateBench.InitTextStaysScannable` proves of every initialized text.
- With repeated indices, which nodes have changed places after a run is computed (`CoreIterate.RoundsAfter`), not described by a condition on size and seed.
- Matrices are two-dimensional arrays: entry (i, j) is `M[i*N+j]`, and the vector product, which writes the first N entries, writes row 0.
- Barrier: sequential consistency of the two shared variables, which the fences and `volatile` are there for; `verify` and `lfsr` of the same header.
- NumberFormat.Number: counts `size` and `precision` in unbounded integers, so widths at the very end of the 32-bit range do not wrap.
- FormatString.VSprintf: does not bound the output by the 1024 characters of `ee_printf`'s buffer; reading past an argument list is not modelled, the list has no end.
- Floating-point formatting (`parse_float`, `flt` and what they call), switched off by `HAS_FLOAT`.
- Syscalls.SprintfDecimal: takes width, padding and length flag of the conversion as they have been read; reading the format and the other conversions of `vprintfmt` repeat what `FormatString` proves for the larger formatter.
- WordStrings.StrCmp: is compiled only with `USE_MYSTDLIB`; strings and blocks must not overlap, as for the C library functions, and memory is a whole number of words.
- Mandelbrot.Iterate: the condition on the coordinates is sufficient only; points beyond it that escape early do not overflow either.
- CoeImage: reading and writing files; lines arrive already split into addresses, which are not negative, and bytes.
- UART, timer, PWM and QSPI access, the accelerator and convolution programs, Dhrystone, Tetris, CoreMark's reporting and timing, hex packers, and the copies of the modelled files in other directories.
