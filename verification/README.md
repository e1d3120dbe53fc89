# miniob, verified

This project models the parts of miniob whose correctness is least visible in the code, and proves what
they promise. Where the code departs from its promise, the model follows the code, and a lemma says
exactly when the promise is kept.

**The B+ tree index** (`IndexKeys`, `PageTree`, `PageSplit`, `PageMerge`, `PageSteps`, `PageOrder`, `IndexNode`,
`PageInsert`, `KeyLabels`, `PageSearch`, `PageUnique`, `TwinKeys`, `PageDelete`, `PageBorrow`, `PageCascade`, `PageScan`,
`PageFailures`, `BplusTree`, `BplusScanner`). The handler is a class over a pool of page objects with slot arrays that are changed in
place; a page map is read as a tree through a ghost shape that gives every page a height and a key
interval and lists the leaves. The value of an index is the sorted sequence of (attribute, identifier) keys.
Insertion, unique insertion, deletion, lookup, creation and scans are proved against it.

- Inserting a stored key into a full leaf is not noticed: the key is stored twice and the pages are no
  search tree any more. With room in the leaf it is reported.
- A deletion is right iff the cascade of underfull pages never reaches an inner page that borrows from its
  right sibling, or from its left one after losing its last child. Otherwise a child is lost. A leaf that
  borrows from the left does not take the record identifier along.
- A unique insertion is refused if the attribute is that of a separator, although a deletion may have left it in a
  separator only. `PageFailures` has a small tree for each of these failures.
- A scan that is opened without an operator returns nothing; the return code for "no more in memory" is not the end.

**The SEDA thread pool and its stages** (`SedaPool`, `SedaInvariant`, `SedaRuns`). A state machine whose steps are the
critical sections of any number of threads inside and outside the pool.

- The signal that `schedule` leaves out is never missed.
- The one assertion that can fail while callers use stages as they must is that of a second call of `kill_threads` made between the last deduction and the
  return of the first. A call that finds nothing to kill returns only
  if it is woken without a signal. Such a wakeup of a call whose threads are still to exit blocks the
  pool for ever, as the condition is not waited for in a loop.

**SELECT** (`SelectTypes`, `SelectPlan`, `SelectJoin`, `SelectMeaning`, `SelectList`, `RowOrder`, `RowSorting`, `RowParts`, `SortSpans`, `SortExact`,
`RowGrouping`, `ExtremeExact`, `TupleSets`, `SelectQuery`). Push-down of local conditions, the chain of two-way joins with arbiters that accept until both of their
columns are in scope, the select list, ORDER BY and GROUP BY with aggregates.

- A filter compares the stored bytes of a null, in an integer column as a number; an arbiter fails nulls.
- ORDER BY an attribute that is not among the columns shown sorts nothing, and the query does not complain. A query on one
  table also shows the columns that its conditions need.
- Integers whose difference does not fit into 32 bits compare the wrong way round. Rows that such integers decide the order of are
  sorted rightly in some arrangements and wrongly in others, and so is a maximum or minimum of such integers.
- GROUP BY without an aggregate in the select list does nothing. COUNT(*) counts the rows whose first column is not null.

**MD5** (`Md5Words`, `Md5`). The context as a class with state, two counter words and a buffer, the block function as a parameter.

**The lock tracer** (`LockTrace`, `LockProtocol`). The tables as a class, and the macros around the mutex operations as a state
machine beside the real owners.

- The tables stop telling the truth when a thread reports its lock before the previous owner reports its unlock:
  the new owner is not entered, and deadlocks through it are missed, for ever. Looking up the owner of a free mutex
  for the warning about many waiters enters a thread number that no thread has.

**Dates** (`Calendar`, `DateTimes`, `DateSums`, `DateText`). Julian day numbers, date times, the addition of durations, and the text form of
dates in SQL. C's division towards zero is modelled as such.

- Durations with negative parts may be added wrongly: January is preceded by a month of 28 days.
- Adding seconds up to midnight gives the end of the day before, which compares as earlier than the same instant written as the next day.
- The addition of a duration drops the milliseconds.

**The timer stage** (`TimerQueue`, `TimerRuns`). The queue as a class, and callers and timer thread as a state machine.

`Options` has a type for a value that may be missing.

## Model

| member | source | states |
|---|---|---|
| `BplusTree.BplusTreeHandler.InsertEntry` | src/observer/storage/common/bplus_tree.cpp:868-948 | insertion: an absent key leaves a well-formed tree whose key sequence is the old one plus that key; every rejection changes nothing; a present key is noticed iff its leaf is not full, otherwise the pages are no tree of any shape although the call succeeds; a unique insertion is refused iff the attribute is stored or is that of a separator, so that it answers rightly iff the attribute is not that of a separator alone; it keeps attributes distinct |
| `BplusTree.BplusTreeHandler.DeleteEntry` | src/observer/storage/common/bplus_tree.cpp:1532-1556 | deletion: the code says whether the key was stored; the tree afterwards is well formed with exactly the other keys iff the cascade of underfull pages, read off before the call, avoids the inner borrowing that loses a child; else no shape makes the pages a tree; identifiers stay beside their keys iff no leaf borrows from the left an identifier different from the stale one |
| `BplusTree.BplusTreeHandler.GetEntry` | src/observer/storage/common/bplus_tree.cpp:950-993 | lookup succeeds iff the key is stored, and returns what the slot beside the key holds, which is the identifier of the key while all slots hold those of their keys |
| `BplusTree.BplusTreeHandler.FindLeaf` | src/observer/storage/common/bplus_tree.cpp:283-328 | the descent ends in the one leaf whose interval holds the key |
| `BplusTree.BplusTreeHandler.FindLeafUnique` | src/observer/storage/common/bplus_tree.cpp:226-281 | acceptance: the attribute is nowhere in the index and the leaf is the one the descent for the key reaches; it is refused iff the attribute is stored or is that of some separator |
| `BplusTree.BplusTreeHandler.InsertIntoLeaf` | src/observer/storage/common/bplus_tree.cpp:330-375 | the leaf gains key and identifier at their place, or the duplicate is reported and nothing changes |
| `BplusTree.BplusTreeHandler.InsertIntoLeafAfterSplit` | src/observer/storage/common/bplus_tree.cpp:413-541 | splitting a full leaf, through all parents, gives a tree of the old keys and the new one, without a look for duplicates |
| `BplusTree.BplusTreeHandler.InsertInternNode` | src/observer/storage/common/bplus_tree.cpp:544-584 | a page with room gains a separator and the child to its right |
| `BplusTree.BplusTreeHandler.InsertInternNodeAfterSplit` | src/observer/storage/common/bplus_tree.cpp:586-747 | splitting a full inner page and passing the middle separator up keeps tree, keys and identifiers |
| `BplusTree.BplusTreeHandler.InsertIntoParent` | src/observer/storage/common/bplus_tree.cpp:749-781 | the split climbs and ends, on the remaining height: room, another split, or a new root |
| `BplusTree.BplusTreeHandler.InsertIntoNewRoot` | src/observer/storage/common/bplus_tree.cpp:783-866 | the two halves of the old root get a new root over them |
| `BplusTree.BplusTreeHandler.DeleteEntryFromNode` | src/observer/storage/common/bplus_tree.cpp:995-1045 | a page loses exactly the named key, and what its unused slots hold is told |
| `BplusTree.BplusTreeHandler.DeleteEntryInternal` | src/observer/storage/common/bplus_tree.cpp:1347-1530 | removing a key from any page and repairing upwards ends on the height, with the outcome that the safety condition foretells |
| `BplusTree.BplusTreeHandler.CoalesceNode` | src/observer/storage/common/bplus_tree.cpp:1048-1177 | merging two siblings and taking the separator out of the parent |
| `BplusTree.BplusTreeHandler.RedistributeNodes` | src/observer/storage/common/bplus_tree.cpp:1180-1344 | borrowing between siblings in its four cases, with the exact outcome of each |
| `BplusTree.BplusTreeHandler.CollapseRoot` | src/observer/storage/common/bplus_tree.cpp:1370-1403 | an inner root without keys gives way to its only child |
| `BplusTree.BplusTreeHandler.FindFirstIndexSatisfied` | src/observer/storage/common/bplus_tree.cpp:1628-1713 | the start of a scan skips only entries that the scan does not want |
| `BplusTree.BplusTreeHandler.GetFirstLeafPage` | src/observer/storage/common/bplus_tree.cpp:1715-1760 | the leftmost leaf |
| `BplusTree.BplusTreeHandler.constructor` | src/observer/storage/common/bplus_tree.cpp:43-110 | a new index is a well-formed empty tree |
| `IndexNodes.IndexNode.SplitLeaf` | src/observer/storage/common/bplus_tree.cpp:469-503 | the copy loops of a leaf split: the two halves of the leaf with the new entry, and the chain |
| `IndexNodes.IndexNode.SplitInner` | src/observer/storage/common/bplus_tree.cpp:652-685 | the copy loops of an inner split: two halves, and the middle separator handed out |
| `IndexNodes.IndexNode.RemoveKey` | src/observer/storage/common/bplus_tree.cpp:1014-1034 | the shift loops of a removal |
| `IndexNodes.IndexNode.TakeKid` | src/observer/storage/common/bplus_tree.cpp:1254-1264 | the loops of borrowing a child from the right: one child is shifted away |
| `IndexNodes.IndexNode.GiveKid` | src/observer/storage/common/bplus_tree.cpp:1286-1295 | the loops of borrowing a child from the left: the last slot is taken for the last child |
| `IndexNodes.IndexNode.GiveKey` | src/observer/storage/common/bplus_tree.cpp:1241-1249 | borrowing a key from the left: the identifier stays behind |
| `PageSplit.SplitTree` | src/observer/storage/common/bplus_tree.cpp:413-747 | a split keeps the tree: sorted pages, intervals, equal depth, parents, chain |
| `PageSplit.SplitContent` | src/observer/storage/common/bplus_tree.cpp:413-747 | a split keeps the sequence of stored keys |
| `PageInsert.SplitSized` | src/observer/storage/common/bplus_tree.cpp:483-503 | after a split only the parent may be too full, by one key; the halves have legal sizes |
| `PageMerge.MergeTree` | src/observer/storage/common/bplus_tree.cpp:1048-1177 | a merge keeps the tree |
| `PageMerge.MergeContent` | src/observer/storage/common/bplus_tree.cpp:1048-1177 | a merge keeps the sequence of stored keys |
| `PageDelete.BorrowTree` | src/observer/storage/common/bplus_tree.cpp:1180-1344 | moving the border between two siblings keeps tree and keys |
| `PageDelete.SafeSame` | src/observer/storage/common/bplus_tree.cpp:1347-1530 | the safety of a deletion depends on the levels from the short page upwards only |
| `PageBorrow.LeafTakesRightOk` | src/observer/storage/common/bplus_tree.cpp:1228-1239 | a leaf borrowing from the right moves the border between the two leaves |
| `PageBorrow.LeafTakesLeftOk` | src/observer/storage/common/bplus_tree.cpp:1240-1250 | a leaf borrowing from the left moves the border, but for the identifier of the key moved |
| `PageBorrow.InnerTakesLeftOk` | src/observer/storage/common/bplus_tree.cpp:1285-1316 | an inner page borrowing from the left moves the border if its stale slot still holds its last child |
| `PageBorrow.InnerTakesLeftBreaks` | src/observer/storage/common/bplus_tree.cpp:1285-1316 | and leaves no tree of any shape if that slot holds anything that is no page of the tree |
| `PageBorrow.InnerTakesRightBreaks` | src/observer/storage/common/bplus_tree.cpp:1252-1284 | an inner page borrowing from the right never leaves a tree |
| `PageSteps.GrowTree` | src/observer/storage/common/bplus_tree.cpp:783-866 | a new root keeps tree and keys |
| `PageSteps.ShrinkTree` | src/observer/storage/common/bplus_tree.cpp:1370-1403 | dropping a root without keys keeps tree and keys |
| `PageSteps.ContentStrict` | src/observer/storage/common/bplus_tree.cpp:215-224 | the keys along the leaf chain are strictly sorted |
| `PageSteps.LeafDecides` | src/observer/storage/common/bplus_tree.cpp:283-328 | a key is stored iff the leaf whose interval holds it has it |
| `PageOrder.ChainIsInOrder` | src/observer/storage/common/bplus_tree.cpp:1715-1760 | following the leaf chain is traversing the tree from left to right |
| `PageOrder.SeparatorsSeparate` | src/observer/storage/common/bplus_tree.cpp:283-328 | left keys are below a separator, right keys are not |
| `PageSearch.UniqueAbsent` | src/observer/storage/common/bplus_tree.cpp:226-281 | a leaf reached between separators of other attributes speaks for the whole index |
| `PageSearch.AnchoredAttrs` | src/observer/storage/common/bplus_tree.cpp:226-281 | a separator that copies a stored key never causes a false rejection |
| `PageUnique.NoSeparatorMet` | src/observer/storage/common/bplus_tree.cpp:226-281 | if the search for a free attribute gets through to a leaf, no separator anywhere has the attribute |
| `PageFailures.SeparatorStale` | src/observer/storage/common/bplus_tree.cpp:995-1045 | a tree in which deleting a key leaves its attribute in a separator only, so that it is refused as not unique |
| `PageFailures.TwinAccepted` | src/observer/storage/common/bplus_tree.cpp:469-473 | a tree with a full leaf in which a stored key is inserted once more |
| `PageFailures.RidMislaid` | src/observer/storage/common/bplus_tree.cpp:1240-1250 | a tree in which a deletion puts a key beside the identifier of another |
| `PageFailures.ChildLost` | src/observer/storage/common/bplus_tree.cpp:1252-1284 | a tree of three levels in which a deletion loses a child |
| `TwinKeys.NoTreeWithTwin` | src/observer/storage/common/bplus_tree.cpp:469-473 | a key in two slots rules out every tree |
| `PageScan.LeftOfStart` | src/observer/storage/common/bplus_tree.cpp:1628-1713 | leaves left of the one where a scan starts hold only smaller attributes |
| `PageScan.ScanWanted` | src/observer/storage/common/bplus_tree.cpp:1865-1895 | the identifiers in the slots along the chain are those of the wanted entries, in order |
| `PageScan.WantedIff` | src/observer/storage/common/bplus_tree.cpp:1897-2044 | an identifier is wanted iff a stored entry with it satisfies the comparison |
| `BplusScanner.BplusTreeScanner.Scan` | src/observer/storage/common/bplus_tree.cpp:1765-1895 | open, next until the end, close: what the slots beside exactly the wanted keys hold, in key order; these are the identifiers of exactly the entries that satisfy the operator while slots hold the identifiers of their keys |
| `BplusScanner.BplusTreeScanner.Open` | src/observer/storage/common/bplus_tree.cpp:1765-1795 | what an opened scan has still to return is everything wanted |
| `BplusScanner.BplusTreeScanner.NextEntry` | src/observer/storage/common/bplus_tree.cpp:1806-1825 | one call returns the next wanted identifier, or asks to be called again after passing a leaf, or ends the scan when nothing is left |
| `BplusScanner.BplusTreeScanner.GetNextIdxInMemory` | src/observer/storage/common/bplus_tree.cpp:1865-1895 | the next wanted entry of the pinned page |
| `BplusScanner.BplusTreeScanner.FindIdxPages` | src/observer/storage/common/bplus_tree.cpp:1827-1863 | pins the next leaf of the chain |
| `BplusScanner.BplusTreeScanner.Close` | src/observer/storage/common/bplus_tree.cpp:1796-1804 | closing, and closing twice |
| `SedaInvariant.StepKept` | deps/common/seda/thread_pool.cpp:113-293 | every step of every thread keeps the counting invariants over run queue, stages, threads and kill transaction, unless an assertion fails |
| `SedaRuns.Reachable` | deps/common/seda/thread_pool.cpp:113-293 | they hold in every state of every run |
| `SedaInvariant.ScheduleKept` | deps/common/seda/thread_pool.cpp:209-224 | skipping the signal when a pool thread pushes onto an empty queue is safe |
| `SedaRuns.NoLostWakeup` | deps/common/seda/thread_pool.cpp:209-293 | the live threads not blocked on the run condition are at least the tokens in the queue, or all of them |
| `SedaRuns.TokenHasTaker` | deps/common/seda/thread_pool.cpp:234-293 | a waiting token has an awake thread that will not exit first, if any such thread is left |
| `SedaRuns.AssertionsHold` | deps/common/seda/thread_pool.cpp:120-151 | an assertion of pool or stage fails exactly in two cases: a caller connects an ordinary stage twice or without a pool or disconnects one that is not connected, or a second kill call comes in the window after the last thread deducted itself |
| `SedaRuns.AbortWindow` | deps/common/seda/thread_pool.cpp:120-151 | that window is a kill call which was signalled and has not taken the mutex back, or one that found nothing to kill |
| `SedaRuns.AbortReachable` | deps/common/seda/thread_pool.cpp:120-151 | a run that fails this assertion |
| `SedaInvariant.EventThere` | deps/common/seda/stage.cpp:206-216 | a thread that took a token finds an event |
| `SedaInvariant.AddEventKept` | deps/common/seda/stage.cpp:154-171 | adding an event, to an open stage or a closed one, keeps the counts of tokens and references |
| `SedaInvariant.ReleaseKept` | deps/common/seda/stage.cpp:223-230 | releasing an event keeps them |
| `SedaRuns.ConnectExact` | deps/common/seda/stage.cpp:88-115 | connecting a stage keeps its reference count right iff no accepted event is unreleased |
| `SedaRuns.DisconnectDone` | deps/common/seda/stage.cpp:129-144 | a disconnect returns only when the stage has nothing in flight |
| `SedaRuns.DisconnectNotForgotten` | deps/common/seda/stage.cpp:129-144 | a disconnect that waits unsignalled waits for an unreleased event |
| `SedaRuns.KillDone` | deps/common/seda/thread_pool.cpp:120-151 | when a kill ends, every thread ordered to exit is gone and the thread count is exact |
| `SedaRuns.KillNotForgotten` | deps/common/seda/thread_pool.cpp:159-170 | the end of a kill is always signalled, except to a call that had nothing to kill |
| `SedaRuns.VainForever` | deps/common/seda/thread_pool.cpp:130-144 | a call that had nothing to kill waits for ever |
| `SedaRuns.VainReachable` | deps/common/seda/thread_pool.cpp:120-144 | a run to such a call, on a pool without threads |
| `SedaRuns.JammedForever` | deps/common/seda/thread_pool.cpp:144-148 | a call woken before all threads deducted themselves keeps the mutex they need, for ever |
| `SedaRuns.JamReachable` | deps/common/seda/thread_pool.cpp:144-148 | a run to such a wakeup, without a signal |
| `SedaRuns.KillCanFinish` | deps/common/seda/kill_thread.cpp:29-40 | otherwise the exiting threads can release their events without that mutex |
| `SelectMeaning.SelectIsFilteredProduct` | src/observer/sql/executor/execute_stage.cpp:595-621 | the chain of two-way joins with pushed-down filters and waiting conditions gives the sequence of rows of the filtered nested-loop product of all tables |
| `SelectList.ShownIsSelected` | src/observer/sql/executor/execute_stage.cpp:629-657 | with the select list: every combination of records that satisfies WHERE shows the values of the selected attributes, in loop order |
| `SelectMeaning.AllDecided` | src/observer/sql/executor/execute_stage.cpp:1024-1062 | every condition is decided in the end: taken as a filter or in scope of an arbiter |
| `SelectMeaning.ArbiterMeans` | src/observer/sql/executor/execute_stage.cpp:1156-1257 | an arbiter accepts until both columns are in scope, then it is the comparison of their values |
| `SelectMeaning.OuterRound` | src/observer/sql/executor/execute_stage.cpp:595-621 | one round of the chain extends the answer by one table |
| `SelectMeaning.ColumnValue` | src/observer/sql/executor/execute_stage.cpp:1168-1185 | the column found for an attribute holds its value, whatever columns were appended later |
| `SelectPlan.ColumnAppend` | src/observer/sql/executor/tuple.cpp:134-139 | appending columns does not move the ones found before |
| `SelectPlan.CreateSelectTableExecutor` | src/observer/sql/executor/execute_stage.cpp:978-1062 | the columns and filters of one table; exactly the local conditions are marked |
| `SelectPlan.Execute` | src/observer/storage/common/condition_filter.cpp:294-304 | the scan returns the records that pass all filters, in order |
| `SelectJoin.MakeArbiter` | src/observer/sql/executor/execute_stage.cpp:1156-1216 | the search for the two columns |
| `SelectJoin.DfsCartesian` | src/observer/sql/executor/execute_stage.cpp:1068-1100 | the recursion appends to the output the combinations that pass, in order, and restores the tuple under construction |
| `SelectJoin.FoundPairs` | src/observer/sql/executor/execute_stage.cpp:1068-1100 | for two sets it is two nested loops with a test inside |
| `SelectJoin.SelectRows` | src/observer/sql/executor/execute_stage.cpp:454-621 | planning, scanning and joining all tables |
| `SelectList.AttrToNumber` | src/observer/sql/executor/execute_stage.cpp:1259-1318 | the column numbers of a select item, stars expanded |
| `SelectList.SelectShown` | src/observer/sql/executor/execute_stage.cpp:629-657 | the projection loop yields the values of the selected attributes for every combination that satisfies WHERE |
| `SelectQuery.DoSelect` | src/observer/sql/executor/execute_stage.cpp:556-672 | a whole query: join or single table, select list, then ORDER BY if its attributes are shown, then GROUP BY; it fails iff a star is asked for a maximum or minimum |
| `SelectQuery.ItemsFindable` | src/observer/sql/executor/tuple.cpp:325-337 | in a resolved query on tables that have fields GROUP BY finds a column for every item of the select list |
| `SelectQuery.GroupNotShown` | src/observer/sql/executor/tuple.cpp:389-403 | a query whose GROUP BY attribute is not among the columns in which the code looks for it |
| `SelectTypes.PushdownDiffers` | src/observer/sql/executor/execute_stage.cpp:1218-1257 | a comparison answers differently as filter and as arbiter exactly when a null passes the filter |
| `SelectTypes.NullAsNumber` | src/observer/storage/common/condition_filter.cpp:176-185 | a null in an integer column that passes a filter: its characters are read as a number |
| `SelectTypes.IntCompareExact` | src/observer/sql/executor/value.h:39-42 | the integer comparison by 32-bit difference has the right sign exactly when the difference fits; equality is always right |
| `SelectTypes.StrCmpZero` | src/observer/sql/executor/value.h:84-87 | two strings compare equal iff they are equal |
| `TupleSets.TupleSet.OrderBy` | src/observer/sql/executor/tuple.cpp:237-289 | ORDER BY: unknown attributes are refused and change nothing; otherwise the rows are those of the bubble sort, a rearrangement that inverts no two rows the keys do not demand, in key order whenever no two rows are too far apart on the first key on which they differ |
| `SortExact.SortExactly` | src/observer/sql/executor/tuple.cpp:264-281 | for any number of rows and any keys, ascending or descending: the bubble sort brings the rows into key order however they are arranged iff no two of them differ by 32 bits or more on the first key on which they differ |
| `SortExact.OneKeyExact` | src/observer/sql/executor/tuple.cpp:264-281 | for one integer key this says that the largest minus the smallest is below 2^31 |
| `SortExact.SomeWrong` | src/observer/sql/executor/tuple.cpp:264-281 | two rows that are too far apart spoil some arrangement of all the rows, whatever the others are |
| `RowSorting.BubbleSort` | src/observer/sql/executor/tuple.cpp:264-281 | the bubble sort in place: a stable rearrangement, in key order if the rows compare rightly |
| `RowSorting.TwoRowsExact` | src/observer/sql/executor/tuple.cpp:264-281 | two rows of one integer come out in order iff the difference of the integers fits into 32 bits |
| `RowSorting.StableUnique` | src/observer/sql/executor/tuple.cpp:237-289 | a stable rearrangement in key order is unique |
| `RowOrder.TupleCmp` | src/observer/sql/executor/tuple.cpp:72-86 | the comparison of two rows, key by key |
| `RowOrder.SwapIsOrder` | src/observer/sql/executor/tuple.cpp:72-86 | it asks for a swap iff the second row belongs strictly before the first: the first key on which they differ says so, ascending or descending |
| `RowOrder.InOrderTransitive` | src/observer/sql/executor/tuple.cpp:72-86 | rows that need no swap form a transitive relation |
| `RowOrder.CompareIsOrder` | src/observer/sql/executor/value.h:39-87 | the three outcomes of comparing two cells are the order of the numbers or of the texts |
| `TupleSets.TupleSet.GroupBy` | src/observer/sql/executor/tuple.cpp:291-552 | GROUP BY: one row for each group, in order of first appearance, holding for each item what the item asks of the rows of the group; a query without aggregates is left ungrouped; a misused star is refused and changes nothing |
| `RowGrouping.MakeGroups` | src/observer/sql/executor/tuple.cpp:404-420 | two rows share a number iff they agree on all group keys; numbers count up in order of first appearance |
| `RowGrouping.GroupedUnique` | src/observer/sql/executor/tuple.cpp:404-420 | these properties determine the numbering |
| `RowGrouping.TupleCompare` | src/observer/sql/executor/tuple.cpp:87-98 | two rows agree on all group keys |
| `RowGrouping.Aggregate` | src/observer/sql/executor/tuple.cpp:455-542 | a count is that of the cells that are not null; a maximum or minimum is one of them and bounds all of them if they compare rightly, or is NULL if there are none |
| `ExtremeExact.ExtremeExactly` | src/observer/sql/executor/tuple.cpp:468-500 | for any rows: the maximum or minimum computed is the largest or smallest cell however the rows are arranged iff no two cells that are not null are too far apart |
| `RowGrouping.CountsAddUp` | src/observer/sql/executor/tuple.cpp:435-546 | the counts of all groups add up to the cells of the column that are not null |
| `Md5.Md5Context.Update` | deps/common/math/md5.cpp:109-139 | the context after an update depends on the bytes received so far only, however they were cut, for every length for which the loop guard does not wrap around |
| `Md5.Md5Context.AddCount` | deps/common/math/md5.cpp:115-118 | the bit count in two 32-bit words, with a carry found by comparison, is eight times the length modulo two to the 64 |
| `Md5.Md5Context.Final` | deps/common/math/md5.cpp:145-168 | padding and length as sections 3.1 and 3.2 of RFC 1321 ask, and the digest of the padded message |
| `Md5.Md5File` | deps/common/math/md5.cpp:332-350 | the digest of a file depends on its contents only and is that of the same bytes in one buffer |
| `Md5.Md5Buffer` | deps/common/math/md5.cpp:323-330 | the digest of a buffer of any length below 2^32 |
| `Md5.BlocksMore` | deps/common/math/md5.cpp:125-138 | folding the blocks of a message and of more bytes needs of the message only the incomplete block |
| `Md5.CountAdd` | deps/common/math/md5.cpp:115-118 | the carry between the two words is right for every count and every length |
| `Md5.GuardExact` | deps/common/math/md5.cpp:129-130 | the unsigned loop guard says what is meant exactly when the index does not wrap around |
| `Md5.GuardNeverFails` | deps/common/math/md5.cpp:129-130 | for every other length the guard holds at every index the loop comes to, so that the loop does not end |
| `Md5Words.EncodeDecode` | deps/common/math/md5.cpp:266-287 | decoding undoes encoding |
| `Md5Words.ByteRoundTrip` | deps/common/math/md5.cpp:266-287 | and encoding undoes decoding |
| `Md5Words.Encode` | deps/common/math/md5.cpp:266-275 | words to bytes, least significant first |
| `Md5Words.Decode` | deps/common/math/md5.cpp:281-287 | bytes to words |
| `LockTrace.Tracer.DeadlockCheck` | deps/common/lang/mutex.cpp:82-116 | the answer is yes iff the thread would wait for itself: on a mutex of its own, or through a chain of recorded waits within the bound |
| `LockTrace.Tracer.Follow` | deps/common/lang/mutex.cpp:52-80 | following the waits finds a way back iff there is one within the bound |
| `LockTrace.Tracer.CheckLockTimes` | deps/common/lang/mutex.cpp:118-142 | the counting of waiters, and the entry that looking up the owner creates |
| `LockTrace.Tracer.Check` | deps/common/lang/mutex.cpp:144-154 | a check keeps the two ownership tables inverse iff it does not create such an entry |
| `LockTrace.Tracer.InsertLock` | deps/common/lang/mutex.cpp:156-175 | recording a lock, which does not replace an entry that is there: the ownership tables stay inverse iff no other thread is recorded |
| `LockTrace.Tracer.TryLock` | deps/common/lang/mutex.cpp:185-195 | recording a lock only if nobody is recorded |
| `LockTrace.Tracer.Unlock` | deps/common/lang/mutex.cpp:197-207 | forgetting a lock: the ownership tables stay inverse iff no other thread is recorded |
| `LockProtocol.StepExact` | deps/common/lang/mutex.h:164-233 | every step of locking, unlocking and waiting keeps the tables true, except exactly a lock reported before the previous unlock, and a lookup of the owner of a free mutex |
| `LockProtocol.CleanRuns` | deps/common/lang/mutex.h:164-233 | so they stay true along every run without these two |
| `LockProtocol.TrueFromStart` | deps/common/lang/mutex.h:164-233 | in particular along those that start with empty tables |
| `LockProtocol.TimesKept` | deps/common/lang/mutex.cpp:118-175 | every step keeps the counter of a mutex equal to the number of threads on their way to it |
| `LockProtocol.TimesFromStart` | deps/common/lang/mutex.cpp:118-175 | so it is in every state of every run that starts with empty tables |
| `LockProtocol.AlarmIsExact` | deps/common/lang/mutex.cpp:82-116 | on true tables the check warns iff the announced wait closes a circle of really blocked threads within the bound, or the thread owns the mutex |
| `LockProtocol.StepReal` | deps/common/lang/mutex.h:164-233 | every step keeps what threads have really locked, whatever becomes of the tables |
| `LockProtocol.DeadlockForever` | deps/common/lang/mutex.h:164-233 | once any run from the empty tables has led into such a circle no continuation leaves it, whether the tables are true or not |
| `LockProtocol.QuietAfterRest` | deps/common/lang/mutex.h:211-233 | the check after a wait on a condition never warns |
| `LockProtocol.ReportLost` | deps/common/lang/mutex.cpp:156-207 | any hand-over in which the new owner reports first leaves a locked mutex without an entry |
| `LockProtocol.PhantomReachable` | deps/common/lang/mutex.cpp:118-142 | a run, for every bound, after which a check enters an owner that no thread is |
| `LockProtocol.DeadlockMissed` | deps/common/lang/mutex.cpp:82-116 | a run to a deadlock of two threads that the check does not see, whatever the bound |
| `LockProtocol.MissedForever` | deps/common/lang/mutex.h:164-233 | so the deadlock that the check does not see is one for ever |
| `Calendar.DateToNumber` | deps/common/time/datetime.h:233-252 | from the first of March 4801 BC on, the date of the day number of a date is that date |
| `Calendar.NumberToDate` | deps/common/time/datetime.h:233-252 | every day number from -32044 on has a calendar date, and that date has this number |
| `Calendar.NextNumber` | deps/common/time/datetime.h:233-239 | the next calendar day has the next number |
| `Calendar.NumbersGrow` | deps/common/time/datetime.h:233-239 | day numbers are in calendar order |
| `Calendar.FirstDateCollides` | deps/common/time/datetime.h:233-239 | one day earlier two dates share a number |
| `DateTimes.DateTime.AddSeconds` | deps/common/time/datetime.h:173-187 | the instant moves by exactly the seconds added, from midnight in either form too; midnight comes out as the end of the day before exactly when the time of day reaches it |
| `DateTimes.TimeToClock` | deps/common/time/datetime.h:109-115 | splitting a time into clock parts and putting it together again, also when it is negative |
| `DateTimes.ClockToTime` | deps/common/time/datetime.h:206-210 | and the other way round |
| `DateTimes.LessIsEarlier` | deps/common/time/datetime.h:299-307 | the comparison is that of instants except exactly for the two forms of one midnight |
| `DateTimes.DateTime.AddDuration` | deps/common/time/datetime.cpp:130-201 | the addition as the loop carries it out, for all durations |
| `DateTimes.SettleExact` | deps/common/time/datetime.cpp:180-198 | settling the days month by month is exact iff they do not lead back beyond the first of January |
| `DateTimes.SumExact` | deps/common/time/datetime.cpp:130-201 | the sum of a date and a duration whose months leave it in a real month is exact to the second iff its days do not lead back beyond the first of January of the year reached |
| `DateSums.SumExactIff` | deps/common/time/datetime.cpp:130-201 | the sum with any duration, of parts of any sign, is exact to the second iff its days fit, which a caller can see from the date and the duration |
| `DateSums.EarlyExact` | deps/common/time/datetime.cpp:180-223 | settling the days in the months 0 to -10, for each number of days that were cut off too much |
| `DateTimes.NonNegativeExact` | deps/common/time/datetime.cpp:130-201 | a duration without negative parts is always added exactly, and the time is a time of day |
| `DateTimes.MonthsBackWrong` | deps/common/time/datetime.cpp:140-201 | three months before the 31st of March come out as the 28th of December |
| `DateTimes.MaxDayReal` | deps/common/time/datetime.cpp:204-223 | the months of a year get their Gregorian lengths, the months 0 to -10 get 28 days |
| `DateText.WriteThenRead` | src/observer/sql/executor/tuple.cpp:688-714 | reading what was written gives the date back iff its year has at most four digits |
| `DateText.NegativeDash` | src/observer/sql/executor/tuple.cpp:688-714 | a negative number may be printed with a dash for a digit |
| `DateText.ReadThenWrite` | src/observer/sql/parser/parse.cpp:97-128 | writing what was read pads each part with zeros |
| `DateText.DatesOrdered` | src/observer/sql/executor/tuple.cpp:688-714 | printed dates compare as texts like the numbers |
| `DateText.ValueInitDates` | src/observer/sql/parser/parse.cpp:97-121 | the parser splits at the first and the last dash |
| `DateText.ReadJoined` | src/observer/sql/parser/parse.cpp:97-121 | three parts without dashes are read as year, month and day |
| `DateText.CharToInt` | src/observer/sql/parser/parse.cpp:122-128 | the value of a run of digits |
| `DateText.IntToChar` | src/observer/sql/executor/tuple.cpp:688-714 | the digit loops of the printer |
| `TimerQueue.TimerStage.RegisterTimer` | deps/common/seda/timer_stage.cpp:303-333 | the timer takes its place in token order, and a check is due iff it is first |
| `TimerQueue.TimerStage.CancelTimer` | deps/common/seda/timer_stage.cpp:335-357 | a cancellation succeeds iff the timer is still queued, and removes only that one |
| `TimerQueue.TimerStage.CheckTimer` | deps/common/seda/timer_stage.cpp:376-440 | a pass triggers exactly the timers whose time has come, in token order, and sleeps until the first of the others |
| `TimerQueue.TokensOrdered` | deps/common/seda/timer_stage.cpp:117-123 | tokens are totally ordered |
| `TimerQueue.RealtimeToMonotonic` | deps/common/seda/timer_stage.cpp:57-77 | a wall clock time is moved to the monotonic clock without loss, in normal form |
| `TimerQueue.SubTimeval` | deps/common/seda/timer_stage.cpp:35-44 | the difference of two times |
| `TimerQueue.AddTimeval` | deps/common/seda/timer_stage.cpp:46-55 | the sum of two times |
| `TimerQueue.RelativeTime` | deps/common/seda/timer_stage.cpp:137-152 | the time of a relative timer, in normal form |
| `TimerQueue.LessIsEarlier` | deps/common/seda/timer_stage.cpp:27-33 | comparing the parts of two normal times compares the times |
| `TimerRuns.RunsKeep` | deps/common/seda/timer_stage.cpp:303-440 | every run keeps what every step keeps |
| `TimerRuns.InvFromStart` | deps/common/seda/timer_stage.cpp:303-440 | in every state of every run from the start: each registered timer is queued, fired or cancelled, only one of these, and fires once; none fired early; the counter is the queue length; the sleeper wakes in time |
| `TimerRuns.RegisterFresh` | deps/common/seda/timer_stage.cpp:303-319 | the assertion that a token is not in the queue yet never fails |
| `TimerRuns.CancelDecides` | deps/common/seda/timer_stage.cpp:335-357 | a timer whose cancellation succeeded never fires |
| `TimerRuns.PassExact` | deps/common/seda/timer_stage.cpp:376-412 | after a pass nothing due is queued, and what fired was exactly what was due |
| `TimerRuns.NeverOversleeps` | deps/common/seda/timer_stage.cpp:422-437 | unless a signal is on its way, the deadline of the sleeper is no later than any timer |
| `TimerRuns.ShutdownEnds` | deps/common/seda/timer_stage.cpp:262-276 | a shutdown is not slept through and ends the thread at its next pass |
| `TimerRuns.EndedForGood` | deps/common/seda/timer_stage.cpp:376-440 | after that nothing fires any more |

## Left out

The index:

- The disk buffer pool, pinning, dirty marking, files and input or output errors: pages are objects in memory, a page number is free or names one page. Page allocation is any function that gives a number not in use, and says nothing of the contents of the page, except that a new root starts with an empty chain link.
- The header with the root page is not written back in the code modelled, so nothing is said of closing and opening an index again.
- Keys of type FLOATS, whose comparison has a tolerance and is no order, and texts: attributes are integers, compared as numbers. The tests for the text null on the bytes of a key are not modelled.
- The order of a page is any number from 3 on; how it follows from the page size is not modelled.
- Printing a tree.

The thread pool and stages:

- Events are counted, not told apart: callbacks and what a handler does besides scheduling and releasing are not modelled.
- `SedaRuns.AssertionsHold`: connecting a stage while its disconnection still waits is left out, as is every other use of one stage by two parties at once.
- Handlers that connect or disconnect stages or kill threads: these calls are made by threads outside the pool.
- Failing thread creation in `add_threads`; more than one pool.
- Reads of queue lengths without a mutex.

SELECT:

- IS NULL and IS NOT NULL, conditions on values of different types (which hit an assertion), FLOATS, TEXT columns, and dates as immediate values. A date cell is its printed text; `DateText.DatesOrdered` says that texts and numbers compare alike.
- Resolving unqualified attributes and detecting ambiguous ones: attributes are resolved, tables are distinct.
- The record manager and transactions: a table is a sequence of records.
- Two nulls in one integer column that are spelled in different cases, which a filter compares as numbers and not as texts.
- AVG and the reading of floating-point numbers from text. The titles of aggregate columns.
- Sorting or grouping columns that mix nulls with integers, where the code reads one type as another: cells of one key column have one type.
- `TupleSets.TupleSet.OrderBy`: the order is promised for rows that compare rightly; for one arrangement of rows that do not, only that the rows are those of the bubble sort, rearranged stably. `SortExact.SortExactly` says when all arrangements come out in order.
- `TupleSets.TupleSet.GroupBy`: attributes to group by that are not among the columns shown, as in `SELECT COUNT(a) FROM t GROUP BY b` (`SelectQuery.GroupNotShown`). The code then compares rows by a column number that was never set.
- `SelectQuery.DoSelect`: the same queries.

MD5:

- The rounds of the block function, which is a parameter, so that digests are relative to it. Errors of reading a file.
- `Md5.Md5Context.Update`: updates for which the unsigned loop guard wraps around, which never return (`Md5.GuardNeverFails`).

The lock tracer:

- `check` changes the tables while it holds only a read lock; here it is one step.
- Mutexes locked recursively, `MUTEX_TRYLOCK` in the protocol, and a timed wait that times out and is not announced again. Threads that were woken and wait to get the mutex of their condition back are not part of a circle, as they are not in the tables.
- The limit of the depth is any number; it is 8 unless it is set.

Dates:

- Parsing durations and the XML formats; sums that end before the year 4800 BC.
- 32-bit overflow of day numbers and of intermediate products in far years.
- Date texts without a dash, for which the parser reads uninitialised variables.

The timer stage:

- The clock is a parameter of every pass; that a sleeping thread is woken at its deadline is left to the operating system. Reading the event counter without the mutex. Wrapping around of the 64-bit nonces.

Other parts of the repository, which would add only easy members: bitmap, logging, ini files, metrics, JSON metadata, sockets, the generated lexer and parser.
