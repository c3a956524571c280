# Verified models of PoprC's runtime structures

PoprC compiles Popr, a concatenative language, to C and Verilog.  The compiler stands on a small
library of its own data structures and analyses.  This project models the hardest of them in Dafny
and proves what they promise.

| files | what they model |
|---|---|
| `Order`, `Blocks`, `Merge`, `BufferMerge`, `FastMerge` | pairs and their order; the in-place merge with its rotating queue and recursive re-balancing, and the two merges by way of a circular buffer |
| `BinaryRuns`, `ZMap`, `Search`, `Dictionary` | the zero-overhead map: one array, cut into sorted runs by the binary digits of its count, that carries like a binary counter; look-ups; what a map means after any sequence of operations |
| `FreeRing`, `CellStore`, `RefCount`, `HeapRuns`, `AltSets` | the cell store with its ring of free cells, reference counting on top of it, whole runs of both, and the sets that make branches exclude each other |
| `SatInt`, `Ranges`, `Bounds` | saturating integers; inference of ranges forward through `+ - * % &` and backward through arithmetic and comparisons |
| `RobinHood`, `QuickSort`, `Flatten`, `RingBuffer`, `Escape` | the hash set, the sort with an explicit stack, interval flattening, the byte queue, string escapes |
| `LastUse` | last-use analysis of a trace |
| `Options`, `Arith`, `Powers` | helpers |

Structures that the source updates in place are arrays and classes here, and their methods follow the
source's loops branch by branch; pure expressions are functions.  An address is an index.  Machine
words are integers, bounded where the bounds matter (`SatInt.Word`, `Escape.Char`, `AltSets.Word`).
A comparison function is the rank it gives to each key (`Order.RankOfStrictWeakOrder` says why that
is enough).  An assertion of the source that a caller can trip is a result (`AllocResult`,
`Inserted`, `Option`); one that only guards against misuse is a precondition.

## Where the code does less than it may seem

Each of these is stated exactly by the member named.

- `merge_with_buffer_fast` takes `h == t` for an empty queue, so a full queue looks empty and a left run
  shorter than the right one can be lost (`FastMerge.FastMergeExact`, `FastMerge.FastMergeLosesPair`).
  Its callers never pass one.
- `closure_alloc_cells` removes a found chunk cell by cell.  If the chunk is the whole ring it fails on the
  last cell, when the others are already out of the ring and belong to nobody (`CellStore.Store.Remove`,
  `CellStore.WantsLastCell`).
- The search of `closure_alloc_cells` takes a cell that was never used for a free one, because its `op` is 0.  When
  fewer unused cells are left than requested and the cell before them is free, the chunk found can go on into them;
  then `cell_alloc` finds a null link.  With assertions on, this is an error; without them the link is followed
  (`CellStore.Store.Alloc`, `CellStore.OutcomeMeans`, `CellStore.RunsIntoUnused`).
- `set_insert` into a full table has driven other keys on by the time it fails, and one is lost
  (`RobinHood.SetInsert`).
- `sat_mul` divides the least integer by -1 if its left factor is -1, unless the right one is 0 or the
  least integer (`SatInt.CanMulExact`, `Ranges.MulRangeDefined`).  `sat_muli` looks at its left factor twice and
  never at the right one.  That lets -1 times the positive infinity through to the division, which -1 times a range
  without an upper bound comes to; all other products with an infinity come out right (`Ranges.RightTestMissed`).
- `div_min` and `div_max` are the floor and ceiling except close to the ends of the machine range
  (`SatInt.DivMinFloor`, `SatInt.DivMaxCeiling`).
- Range inference takes the ends of the machine range for infinities, and excludes results where a
  range uses one on the wrong side (`Ranges.AddRangeSound`, `Ranges.SubRangeSound`, `Ranges.MulRangeSound`).
- `range_span` overflows for every non-empty range with an infinite end, which is what an unbounded variable has,
  and `mod_range_op` calls it on the dividend; in a build that checks for overflow this is reported.  Where it wraps
  around, the range of remainders is still right, with one exception (`Ranges.SpanCounts`, `Ranges.ModRangeSound`).
- `mod_range_op` takes the magnitude of the least constant but one for an infinity, and then gives a lower end that is
  no remainder (`Ranges.ModRangeLoose`).
- Backward bounds exclude good operands for products with a negative constant and an unbounded request, and
  for most quotients (`Bounds.MulBackwardNegative`, `Bounds.DivBackward`).
- `escape_string` writes a backslash and the raw character where a hexadecimal sequence does not fit, and a
  sequence that cannot be read back for characters that are negative as `char`
  (`Escape.EscapeRoundTrip`).

## Model

| member | source | states |
|---|---|---|
| `Order.RankOfStrictWeakOrder` | startle/map.c:260-269 | A comparison function that is a strict weak order on the keys in use orders them as integer ranks do, so modelling `cmp` by ranks loses nothing. |
| `Order.StableMergeSorted` | startle/map.c:144-151 | The reference merge of two sorted runs is sorted. |
| `Order.StableMergePermutes` | startle/map.c:144-151 | The reference merge keeps every pair, as often as it occurs. |
| `Blocks.SwapBlock` | startle/map.c:66-73 | Exactly the two blocks trade places; all else stays. |
| `Blocks.Reverse` | startle/map.c:75-81 | The stretch is turned around in place; all else stays. |
| `Blocks.Rotate` | startle/map.c:83-91 | Two adjacent blocks trade places in place; all else stays. |
| `Merge.Scan` | startle/map.c:54-64 | Counts the longest stretch of lesser keys: all within it are less, the next one is not. |
| `Merge.AppendToQueue` | startle/map.c:190-216 | In each of the three ways, the rotated queue ends up with the new pairs behind its old ones, and nothing outside changes. |
| `Merge.RunTaken` | startle/map.c:185-218 | Taking a run of lesser pairs into the output keeps the merge on course for the same result. |
| `Merge.HeadTaken` | startle/map.c:233-239 | Taking the head of the queue, with wrap-around, keeps the merge on course for the same result. |
| `Merge.QueueStolen` | startle/map.c:250-256 | When the left run is used up, the queue put in order takes its place without changing the result. |
| `Merge.Rebalanced` | startle/map.c:220-232 | Re-balancing turns the goal into another sorted permutation of the same pairs. |
| `Merge.TakeRun` | startle/map.c:185-232 | One run is taken and possibly re-balanced; the loop invariant holds again, with the recursion on a strictly shorter part. |
| `Merge.Rebalance` | startle/map.c:220-232 | The recursive call: the queue is emptied into the right run, towards a sorted permutation of the same pairs. |
| `Merge.Step` | startle/map.c:167-248 | Every branch of an iteration keeps the invariant and moves the output on. |
| `Merge.Merge` | startle/map.c:144-258 | Any two adjacent sorted runs become one sorted permutation in place; nothing outside changes; stable unless there was a re-balancing, which takes more than 128 pairs in each run. |
| `BufferMerge.Displaced` | startle/map.c:329-377 | A pair of the right run goes out, the displaced pair joins the circular queue in the buffer, and the result aimed at stays the same. |
| `BufferMerge.MergeWithBuffer` | startle/map.c:321-377 | Sorted runs of any two lengths become a sorted permutation; the array as a whole keeps its pairs; only the runs and the first min(left, right) buffer slots are written. |
| `BufferMerge.BufferPreserved` | startle/map.c:321-377 | The buffer is left with the pairs that it had. |
| `FastMerge.MergeWithBufferFast` | startle/map.c:442-488 | For any two sorted runs, the exact effect: a sorted permutation, the stable merge when the left run is not the longer one, and otherwise what an overflow of the queue leaves; no buffer slot beyond the first min(left, right) is written. |
| `FastMerge.FastMergeExact` | startle/map.c:442-488 | The result is a sorted permutation if and only if the queue does not overflow (a shorter left run of which every pair is displaced), or the pairs lost equal those written twice. |
| `FastMerge.FastMergeLosesPair` | startle/map.c:442-488 | A concrete input on which a pair is lost. |
| `BinaryRuns.OnlyMerge` | startle/map.c:713-730 | The reference merge keeps pairs with equal keys in order: those of the left run, then those of the right. |
| `BinaryRuns.CarryStep` | startle/map.c:720-729 | Merging the last run with one of equal length is a carry of the binary counter. |
| `BinaryRuns.RunsAppended` | startle/map.c:823-837 | A sorted block shorter than the last run falls into runs for the new low digits. |
| `BinaryRuns.RunAt` | startle/map.c:861-868 | The stretch that a binary digit of the count stands for is a sorted run. |
| `BinaryRuns.RunsTruncated` | startle/map.c:972-984 | The runs before a run are those of the higher digits. |
| `BinaryRuns.RunsInOrder` | startle/map.c:713-730 | The runs of the digits of a count do not overlap, and longer ones come first. |
| `BinaryRuns.RunsOnly` | startle/map.c:713-730 | Over all runs, the pairs with equal keys stand in the order of their insertion. |
| `ZMap.MergeRuns` | startle/map.c:723-727 | Merges the last two runs, by way of the unused tail if it fits; earlier runs stay as they are. |
| `ZMap.MapSort` | startle/map.c:712-730 | After an insertion the carry restores the binary-counter invariant and keeps the entries. |
| `ZMap.Insert` | startle/map.c:785-793 | Inserts unless full; keeps the invariant; the entries gain exactly the pair; a refusal changes nothing; insertion order is kept for equal keys. |
| `ZMap.MergeBlock` | startle/map.c:809-840 | Inserts a sorted block unless there is no room for all of it; keeps the invariant; entries are the multiset sum; a refusal changes nothing; the pairs of the block count as inserted after those that were there. |
| `ZMap.Union` | startle/map.c:852-871 | Inserts all entries of another map unless there is no room; keeps the invariant; a refusal changes nothing; the entries count as inserted after those that were there, in the order in which they stand in the other map. |
| `ZMap.SortFull` | startle/map.c:732-749 | Leaves one sorted run with the same entries. |
| `Search.FindLast` | startle/support.c:219-251 | Finds the last match in a run or reports that there is none, from whatever estimate inside the run it starts; there is only one such answer (`Search.LastMatchUnique`). |
| `Search.FindLastString` | startle/support.c:253-269 | The same with string keys. |
| `Search.AtNextDigit` | startle/map.c:975-981 | Wherever in a run the search ends, half of that lies inside the next run searched. |
| `Search.MapIterator.SearchRun` | startle/map.c:975-981 | Searches one run completely and moves on to the next digit. |
| `Search.MapIterator.Find` | startle/map.c:972-984 | Returns the last entry with the key in the first of the runs not yet searched that has one, and stops behind that run; or none if there is none. |
| `Search.FindAll` | startle/map.c:961-984 | Repeated calls report exactly the last entry with the key of each run that has one, in order. |
| `Search.MapFind` | startle/map.c:942-951 | Returns the last entry with the key in the longest run that has one, and none if and only if there is none. |
| `Search.StringMapFind` | startle/map.c:1055-1076 | Returns the most recently inserted pair with an equal key, if and only if there is one. |
| `Search.NewestInRun` | startle/map.c:1068-1074 | The last match in the newest run that has one is the newest pair overall. |
| `Dictionary.KeysDistinct` | startle/map.c:900-909 | In a map written only by replacing insertions no key occurs twice. |
| `Dictionary.ReplaceInsert` | startle/map.c:900-909 | Refines the update of a dictionary; refused exactly when the key is new and the map full. |
| `Dictionary.WriteAllThenFind` | startle/map.c:900-984 | After any sequence of replacing insertions a look-up returns the last value written for the key, or nothing. |
| `Dictionary.InsertAllThenFind` | startle/map.c:805-807 | After any sequence of string insertions, a look-up returns an accepted pair with an equal key if and only if there is one.  Newest wins: it is the most recent one, as long as fewer than 512 pairs were accepted, or no more than two thirds of the capacity. |
| `Dictionary.ApplyAllThenSort` | startle/map.c:785-871 | After any mix of insert, merge and union the map holds the multiset sum of all that was accepted, and sorting fully leaves one sorted run of it. |
| `Dictionary.ApplyAllThenFind` | startle/map.c:785-871 | After any mix of insert, merge and union a look-up returns an accepted pair with an equal key if and only if there is one, and the newest one as long as no insertion can re-balance: after a union, that of the second map if it has one. |
| `FreeRing.Unlinked` | cells.c:131-142 | Taking a cell out leaves a well-formed ring of the other cells. |
| `FreeRing.Neighbours` | cells.c:131-142 | A cell is its own neighbour exactly when it is the last one. |
| `FreeRing.ExceptInOrder` | cells.c:229-232 | The cells that are left in the ring keep their order. |
| `CellStore.ChunksDisjoint` | cells.c:194-241 | Live chunks never overlap. |
| `CellStore.BehindFree` | cells.c:217-227 | A free cell is followed by a free cell, the head of a live chunk, or a cell never used. |
| `CellStore.ChunkTaken` | cells.c:229-232 | A free chunk taken out of the ring becomes a live chunk, and every cell still belongs somewhere exactly once. |
| `CellStore.ChunkShrunk` | cells.c:276-294 | The same for cells that are given back. |
| `CellStore.Store.constructor` | cells.c:113-129 | The initial ring of two cells satisfies the store invariant, with all else unused and nothing live. |
| `CellStore.Store.CellAlloc` | cells.c:131-142 | Takes one cell out of the ring; fails, and changes nothing else, exactly when it is the last, or was never linked. |
| `CellStore.Store.Search` | cells.c:204-227 | Finds the first cell in ring order from which as many cells as asked for are free or were never used, if and only if there is one, and leaves the ring entered behind it. |
| `CellStore.Store.Remove` | cells.c:229-232 | Takes the free cells of the run out of the ring, keeping the order of the others; fails exactly when they are the whole ring, or else when the run goes on into cells that were never linked; says what has left the ring by then. |
| `CellStore.Store.Alloc` | cells.c:193-241 | The result is a function of ring, never-used cells and count, with each failure exactly when it is due; keeps the invariant and conserves cells; a chunk returned was free or unused, overlaps nothing and is recorded as live; the order of the ring afterwards is a function of the ring before; a failure says what is left of the ring. |
| `CellStore.FirstStartIs` | cells.c:204-227 | The search is complete: the start it is specified to find is the first one in ring order, and there is none otherwise. |
| `CellStore.OutcomeMeans` | cells.c:193-241 | While cells are left but not in one unused stretch: a request is not met for want of a run exactly when no run starts in the ring; it goes on into unused cells only if the last used cell is free; a chunk that is found is free. |
| `CellStore.RunsIntoUnused` | cells.c:193-241 | A store of seven cells, reached by allocating and freeing, in which a request for three goes on into cells that were never linked. |
| `CellStore.WantsLastCell` | cells.c:131-142 | A store of three cells, reached by allocating, in which one cell is left and counted as left, and a request for it fails. |
| `CellStore.GrantedWhole` | cells.c:193-241 | Granting a request keeps every cell unused, in the ring, or in one live chunk, and the count right; the chunk is a new one. |
| `CellStore.FreedAllWhole` | cells.c:276-304 | So does freeing any number of chunks, and exactly those are gone. |
| `CellStore.Store.SpliceBack` | cells.c:283-291 | The cells given back join the ring at its end, in order, and no other cell does. |
| `CellStore.Store.Shrink` | cells.c:276-294 | All but the first cells of a chunk become free again; everything else is unchanged and the invariant holds. |
| `CellStore.FreeUndoesAlloc` | cells.c:193-304 | Where the allocation succeeds, which is as the store says beforehand, freeing the chunk leaves the same chunks live, the same owners and as many cells used; so does an allocation that fails. |
| `RefCount.CellLeaves` | cells.c:433-460 | When the last reference to a cell is given up and its own references are taken over, all other counts are still right. |
| `RefCount.CellEnters` | rt.c:942-962 | A new cell that takes over references leaves all counts right. |
| `RefCount.LiveSupported` | cells.c:433-464 | Every live cell has a reference. |
| `RefCount.ReachableLives` | cells.c:433-464 | Every cell that can be reached from an outside reference is live. |
| `RefCount.LiveReachable` | cells.c:433-464 | Without cycles, every live cell can be reached from an outside reference. |
| `RefCount.Cells.NewChunk` | rt.c:942-962 | Allocates and fills in a chunk, with exactly the result of the store for that request. |
| `RefCount.Cells.Build` | rt.c:942-962 | Allocates a chunk for a new cell, with exactly the result of the store; the cell takes over the references to its arguments and starts with the one reference its creator holds; counts, store and the absence of cycles are kept. |
| `RefCount.Cells.Free` | cells.c:302-304 | The whole chunk of a dead cell goes back to the store. |
| `RefCount.Cells.Refn` | cells.c:397-403 | Adds outside references and keeps the counts right. |
| `RefCount.DropKeeps` | cells.c:433-464 | What giving up references comes to, as a function of counts and references: the counts are right again, what stays is the largest set of cells that are referenced from outside or from within, and each other cell is freed once. |
| `RefCount.DropOrder` | cells.c:441-460 | Cells are freed children first: the one that is dropped comes last, and each other one before a cell that refers to it. |
| `RefCount.DropsInOrder` | cells.c:441-443 | The references of a cell are given up in the order in which they stand. |
| `RefCount.Cells.Dropn` | cells.c:433-464 | Gives up references: counts are right again with so many outside references fewer, exactly the chunks of the cells that are left without support are back in the store, in the order in which the function says they are freed, and the recursion ends. |
| `RefCount.Cells.DropKids` | cells.c:441-443 | The loop over the references of a dying cell, with the same guarantee. |
| `RefCount.NothingLeft` | cells.c:433-464 | A heap without cycles that nothing refers to is empty, and the store counts no cell as used. |
| `RefCount.Cells.Refmove` | cells.c:405-409 | Moves references from one cell to another, with the same guarantee. |
| `HeapRuns.ReleasedGood` | cells.c:433-464 | Giving up a reference keeps the store whole, the counts right and the live cells free of cycles, and leaves the largest supported set. |
| `HeapRuns.MadeGood` | rt.c:942-962 | So does building a cell, from any references held. |
| `HeapRuns.ExactlyReachable` | cells.c:193-464 | In every state that any run leads to, the live cells are exactly those that can be reached from the references held, and the chunks in use are exactly theirs. |
| `HeapRuns.NoCellLost` | cells.c:113-464 | In every such state a used cell is either in the ring, once, or in exactly one chunk, and the count is right. |
| `HeapRuns.NothingHeld` | cells.c:193-464 | In every such state in which nothing is held, nothing is live and every used cell is free. |
| `HeapRuns.AllGivenUp` | cells.c:193-464 | After any run, dropping all references that are held is never refused, and frees every cell. |
| `HeapRuns.Act` | cells.c:193-464 | One action on the heap is refused exactly when it names missing references, or no cells, or its allocation fails; otherwise it leads to the next state. |
| `HeapRuns.Perform` | cells.c:193-464 | A run on the heap gets exactly as far as its first refused action; if it gets to the end, the heap is in the state that is the function of its actions, down to the order of the free cells. |
| `AltSets.ConflictIsBoth` | cells.c:511-513 | A set is in conflict exactly when some id has both branches. |
| `AltSets.MaskIsIds` | cells.c:515-517 | The mask has exactly the ids for which a branch is chosen. |
| `AltSets.FromMaskInverse` | cells.c:519-526 | A set without conflict can be rebuilt from its mask and its odd bits. |
| `AltSets.Multi` | cells.c:492-501 | Chooses for each of the ids the branch named by one bit of the value, and fails exactly when there are not enough ids. |
| `AltSets.MultiConflict` | cells.c:492-513 | The union for two values conflicts exactly when they differ in their low bits. |
| `AltSets.ApartNoConflict` | cells.c:492-513 | Sets over different ids never conflict. |
| `AltSets.IntLog2` | startle/support.c:534-537 | The least number of bits that tell so many values apart. |
| `AltSets.BranchesExclude` | user_func.c:509-526 | Any two distinct branches of an expanded call conflict, and no branch conflicts with itself. |
| `SatInt.SatAdd` | startle/support.c:1275-1282 | The exact sum, clamped to the machine range. |
| `SatInt.SatSub` | startle/support.c:1313-1320 | The exact difference, clamped. |
| `SatInt.SatMulClamps` | startle/support.c:1328-1337 | The exact product, clamped, wherever the C code is defined. |
| `SatInt.SatMulFits` | startle/support.c:1328-1337 | The limits on the factor tell exactly whether the product fits. |
| `SatInt.CanMulExact` | startle/support.c:1328-1337 | Exactly when neither of the two divisions divides the least integer by -1. |
| `SatInt.DivMinFloor` | startle/support.c:1197-1200 | The floor of the quotient or one more; the floor exactly when some multiple of the divisor on the near side is a machine integer. |
| `SatInt.DivMaxCeiling` | startle/support.c:1208-1211 | The ceiling of the quotient or one less; the ceiling exactly when some multiple on the far side is a machine integer. |
| `Ranges.IntersectExact` | startle/support.c:1104-1109 | Holds exactly the common members. |
| `Ranges.UnionSmallest` | startle/support.c:1115-1122 | The smallest range that holds both. |
| `Ranges.SpanCounts` | startle/support.c:1144-1146 | Counts the members, exactly unless that overflows, and then gives the least integer. |
| `Ranges.AddRangeSound` | primitive/arithmetic.c:347-352 | Every sum of members that does not overflow is in the range, if and only if the ends meet a stated condition, which holds when infinities are on their own sides. |
| `Ranges.AddRangeExact` | primitive/arithmetic.c:347-352 | Unless all sums overflow, every member of the range is a sum of members, also where an operand has no end. |
| `Ranges.SubRangeSound` | primitive/arithmetic.c:413-418 | The same for differences. |
| `Ranges.SubRangeExact` | primitive/arithmetic.c:413-418 | The same for differences. |
| `Ranges.RightTestMissed` | startle/support.c:1339-1347 | The infinity test that is missing for the right factor would make a difference for -1 times the positive infinity, which is undefined without it, and for nothing else. |
| `Ranges.MulRangeDefined` | primitive/arithmetic.c:361-370 | The multiplication is defined in C exactly when no end of the left operand is -1, or both ends of the right one are 0 or the least integer. |
| `Ranges.MulRangeSound` | primitive/arithmetic.c:361-370 | Where it is defined, every product of members that does not overflow is in the range, unless the left operand is the positive infinity alone and the right one ends at -1; and then one is not. |
| `Ranges.MulRangeTight` | primitive/arithmetic.c:361-370 | Both ends are clamped products of ends, where an infinite factor makes the product infinite, and all such products are in the range. |
| `Ranges.RemBetween` | primitive/arithmetic.c:463-474 | If the remainders of the ends are as far apart as the ends, remainders do not wrap in between. |
| `Ranges.ModRangeSound` | primitive/arithmetic.c:461-480 | For any operands, every remainder of members by a nonzero member is in the range, but for one kind of operands on which the spans of dividends and remainders overflow alike; and then one is not. |
| `Ranges.ModRangeNarrow` | primitive/arithmetic.c:461-480 | The range goes no further from zero than the dividends, and not as far as a finite largest divisor. |
| `Ranges.ModRangeTight` | primitive/arithmetic.c:461-480 | By a constant, both ends of the range are remainders of dividends, unless the constant is the one whose magnitude is taken for an infinity. |
| `Ranges.ModRangeLoose` | primitive/arithmetic.c:461-480 | Then the lower end is no remainder. |
| `Ranges.ModRangeElse` | primitive/arithmetic.c:476-480 | Otherwise the range holds exactly the numbers from the dividends to zero that are smaller than the largest divisor. |
| `Ranges.AndBits` | primitive/arithmetic.c:551 | The recursive conjunction is bitwise in two's complement. |
| `Ranges.AndRangeSound` | primitive/arithmetic.c:552-566 | Every bitwise conjunction of members is in the range. |
| `Ranges.AndRangeNarrow` | primitive/arithmetic.c:552-566 | The range holds exactly what each operand that is not negative leaves of it. |
| `Bounds.AddBackward` | primitive/arithmetic.c:86-89 | No operand that gives a requested sum is excluded, if and only if a stated condition on the ends holds; it holds for finite constants and proper ends. |
| `Bounds.SubFromBackward` | primitive/arithmetic.c:90-93 | The same for a constant minus the operand. |
| `Bounds.SubBackward` | primitive/arithmetic.c:119-122 | The same for the operand minus a constant. |
| `Bounds.SumsExact` | primitive/arithmetic.c:86-93 | The bounds of sums and differences admit nothing that would not do. |
| `Bounds.MulBackward` | primitive/arithmetic.c:95-97 | By a positive constant: no operand that gives a requested product is excluded, unless a lone infinity is requested and can be hit. |
| `Bounds.MulBackwardNegative` | primitive/arithmetic.c:98-100 | By a negative constant: sound if and only if the request stops short of the infinities, or no product reaches it. |
| `Bounds.MulBoundExact` | primitive/arithmetic.c:94-104 | Where no rounding saturates, the bound admits nothing else, also where the request has no end. |
| `Bounds.DivBackward` | primitive/arithmetic.c:135-142 | The bound through a division is sound if and only if no number is rounded toward an end at or across zero. |
| `Bounds.DivMissed` | primitive/arithmetic.c:135-142 | Otherwise, a number that is wrongly excluded. |
| `Bounds.DivProducts` | primitive/arithmetic.c:135-142 | In any case the exact multiples are not excluded: every requested quotient is reached. |
| `Bounds.DivBoundExact` | primitive/arithmetic.c:135-142 | Where no product of an end saturates, every dividend in the bound has a requested quotient. |
| `Bounds.ArithBackward` | primitive/arithmetic.c:72-152 | For addition, subtraction, and multiplication or division by a constant, under conditions on constant and request that can be checked: no operand whose result meets the request is excluded. |
| `Bounds.ArithExact` | primitive/arithmetic.c:72-152 | Where nothing is clamped, nothing else is admitted: every operand in the bound has a requested result. |
| `Bounds.BoundContextsArith` | primitive/arithmetic.c:72-152 | A bound is inferred exactly for arithmetic with a constant operand, only for the other operand; it excludes no operand whose result is requested, where that can be relied on, and admits no other, where nothing is clamped; of dividends it excludes no exact multiple. |
| `Bounds.Compared` | primitive/arithmetic.c:198-209 | The numbers that compare as wanted with a constant, exactly, but for an infinity compared strictly with itself. |
| `Bounds.BoundContextsCmp` | primitive/arithmetic.c:154-212 | No operand that yields the requested truth value is excluded and, but for an infinity compared strictly with itself, no other is admitted; nothing is inferred only where the source says so. |
| `RobinHood.Displaced` | startle/support.c:552-578 | Every slot between a key's home and its position holds a key at least as far from its own home. |
| `RobinHood.NotAhead` | startle/support.c:560-567 | A key that has met a slot nearer to home than itself is not in the table. |
| `RobinHood.StepSwap` | startle/support.c:560-567 | Driving a key out of its slot keeps the table valid and carries on with that key. |
| `RobinHood.SetInsert` | startle/support.c:552-578 | True exactly when the key was there; otherwise the table gains exactly the key; fails exactly when it is full, and then one key is lost. |
| `RobinHood.SetMember` | startle/support.c:600-608 | True exactly for the nonzero keys in the table. |
| `RobinHood.InsertAll` | startle/support.c:552-578 | From an empty table, any sequence of keys succeeds exactly if no more are different than there are slots, and then the table holds exactly those. |
| `QuickSort.Median3` | startle/support.c:56-83 | The index of the median of the first, middle and last key. |
| `QuickSort.Partition` | startle/support.c:157-182 | The range is permuted so that the pivot separates lesser from other keys. |
| `QuickSort.PartitionSorts` | startle/support.c:184-188 | After a partition, only pairs within one pending range can be out of order. |
| `QuickSort.NextRange` | startle/support.c:184-196 | Stacks the right part and goes on with the left one, or the top of the stack, without overflowing it. |
| `QuickSort.QuickSort` | startle/support.c:142-198 | Leaves a sorted permutation of any array, within a stack of one frame less than elements. |
| `Flatten.CoveredCount` | startle/support.c:1385-1412 | A point is covered exactly when more ranges have begun than ended there. |
| `Flatten.SortedEnds` | startle/support.c:1386-1387 | Sorting left and right ends separately changes no cover, and puts each left end below the right end at its place. |
| `Flatten.SweepClose` | startle/support.c:1392-1398 | Passing a right end keeps the account, and there is always an open range to close. |
| `Flatten.FlattenRanges` | startle/support.c:1385-1412 | Writes increasing, non-empty ranges that do not touch, and cover exactly what the input covers. |
| `LastUse.FinalIsSafe` | ir/analysis.c:251-282 | No marked use is followed, on any execution path, by another use of the same cell. |
| `LastUse.FinalExactly` | ir/analysis.c:251-282 | And every use that is not marked is: some path leads from it to another use of the cell. |
| `LastUse.LastIsFinal` | ir/analysis.c:255-263 | The textually last use of every used cell is marked. |
| `LastUse.MarkCell` | ir/analysis.c:238-249 | Marks the first unused argument of each cell, going back, and takes all of them for used. |
| `LastUse.LastUseAnalysis` | ir/analysis.c:251-282 | Marks exactly the uses after which no execution path uses the cell again. |
| `RingBuffer.Buffer.constructor` | startle/support.c:991-998 | An empty queue, for any size. |
| `RingBuffer.Buffer.Available` | startle/support.c:1000-1002 | The length of the queue. |
| `RingBuffer.Buffer.Clear` | startle/support.c:1008-1010 | Empties the queue. |
| `RingBuffer.Buffer.Write` | startle/support.c:1012-1024 | Appends exactly as many bytes as fit. |
| `RingBuffer.Buffer.Read` | startle/support.c:1026-1038 | Removes exactly as many bytes as were asked for and are there, in order. |
| `RingBuffer.ServedInOrder` | startle/support.c:991-1038 | First in, first out: unless the queue was cleared, what comes out, followed by what is left, is what was there, followed by what was accepted. |
| `RingBuffer.Run` | startle/support.c:991-1038 | Over any run of writes, reads and clears, what is accepted, given out and left is what a queue of one byte less than the size accepts, gives out and keeps. |
| `Escape.StrNum` | startle/support.c:794-804 | The value spelled up to a NUL, or -1. |
| `Escape.SpelledBack` | startle/support.c:776-804 | What the digits of a number spell, in any base, is the number. |
| `Escape.CaseIgnored` | startle/support.c:776-804 | Capital and small letters are read alike. |
| `Escape.EscapedChar` | startle/support.c:813-930 | An escaped 7-bit character is taken back whole, whatever follows; any other one is not. |
| `Escape.UnwrittenSequences` | startle/support.c:813-853 | Sequences for quotation and question marks, which are never written, are taken back. |
| `Escape.HexSequence` | startle/support.c:834-840 | A hexadecimal sequence stands for the byte with that number, in capital and in small letters. |
| `Escape.NoHexSequence` | startle/support.c:834-840 | Without two hexadecimal digits behind it, the backslash stands for itself. |
| `Escape.NoSequence` | startle/support.c:842-850 | So it does before any character that makes no sequence. |
| `Escape.EscapeRoundTrip` | startle/support.c:813-930 | Unescaping undoes escaping exactly when the escaped string fits and all characters are 7-bit. |
| `Escape.FourBytesEach` | startle/support.c:813-930 | Four bytes for each character are enough. |
| `Escape.EscapeString` | startle/support.c:864-930 | Writes the escaped string as far as there is room, and a NUL if there is room for it. |
| `Escape.UnescapeString` | startle/support.c:813-853 | Writes the unescaped string as far as there is room, and a NUL if there is room for it. |

## Left out

- The reduction engine, tracing, specialization, quote compilation, code generation, printing, files,
  the command loop: they have no stated semantics to prove against, or are plumbing.
- `map_next` and `map_find_recent`, which can look outside the run being searched; `string_map_replace_insert`,
  which searches in integer order; `map_find_sorted`, `seg_map_find` and `map_find_value`, which are linear or
  repeat the searches modelled.
- `merge_huang88`, `merge_left_short`, `merge_right_short` and `merge_into_buffer`: the map does not use them.
- Statistics counters, watch points and debug checks.  The accuracy of `isqrt`: the merge is right for any value.
- Merge.Merge: stability is stated for merges without a re-balancing, which does not keep the order of equal keys;
  for runs longer than 128 pairs each, which merges those are is not stated.
- Dictionary.InsertAllThenFind: that the newest pair is found is stated for fewer than 512 pairs, or up to two thirds
  of the capacity, because beyond that an insertion may re-balance; for any number a pair with an equal key is found.
  The same goes for `Dictionary.ApplyAllThenFind`.
- ZMap.SortFull: requires a non-empty map, because the source counts the trailing zeros of the count; it does
  not keep the order of equal keys.
- ZMap.IsMap: capacities end below 2^31, because the source shifts a signed 32-bit one by bit positions of
  the count.
- ZMap.MergeBlock: the block is a value, so a block inside the map's own array is not modelled.
- ZMap.Union: the two maps are different arrays.  A map united with itself is read after its entries have moved: one
  with the runs 1, 2 and 0 ends up with 0, 1, 1, 2, 1, 1.
- BufferMerge.MergeWithBuffer: where the left run is used up, the source has separate loops for an empty and a
  non-empty queue; the model has the loop that tests the queue.
- Search.FindLast: the linear scan in the source is guarded by a condition that its loop excludes.
- CellStore.Store.Alloc: requires that live chunks are filled in, because the search takes `op` for a sign of use.
  Requests for no cells, which the size calculation never makes, are excluded.  The store starts from zeroed memory;
  setting it up a second time, over cells of an earlier run, is not modelled.  After an allocation error that leaves
  cells outside the ring (`LastCell`, `NeverLinked`) nothing more is stated than what is left of the ring.
- CellStore.Store.Shrink: the length of a chunk is passed in; the source computes it from the cell's own size field.
- The union of fields in a cell: a free cell's links and a live cell's fields are separate here.  `cell_free`,
  `alloc_to` and the location that a freed cell keeps are not modelled.
- RefCount.Cells.Dropn: dependent outputs, persistent cells and the hook for traced values are not modelled, nor is
  overflow of a count.
- RefCount.Cells.Build: stands for the node builders and `quote`.  Reduction, which changes cells after they were
  built, is not modelled, so the runs in `HeapRuns` are without it; `RefCount.Cells.Dropn` holds for any heap.
- LastUse.FinalIsSafe: that a return uses its values from the last to the first is an assumption, which agrees with
  the order of marking; the generated C code reads the value with the highest index after the others.
- LastUse.LastUseAnalysis: a trace is a sequence of instructions that name cells by number; the types of unreferenced
  cells, and code that is executed again after a failure, are not modelled.
- Ranges.MulRangeSound: requires operands for which `sat_mul` is defined in C, as `Ranges.MulRangeDefined` says.
  `div_range_op` is not modelled: it is not sound for ranges of divisors.
- Bounds.MulBoundExact: by a negative constant, exactness is stated for bounded requests; others are not sound.
- QuickSort.QuickSort: elements have any type with an integer key; indices are not limited to 32 bits.
- RobinHood.SetInsert: `set_remove` and `squeeze` leave holes, after which the invariant does not hold.
- RingBuffer.Buffer.Write: requires a buffer of at least one byte, as reading and counting do; the source divides by
  its size.
- Escape.UnescapeString: the source looks at the character behind the end of its argument before it compares positions;
  the model compares first.
- Escape.EscapeString: the `xml` mode is not modelled, which is not meant to be undone.
