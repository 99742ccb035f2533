# Trace filters and tools of SmartPerf Host: a verified model

SmartPerf Host turns kernel and user trace events into relational tables (the `trace_streamer` filters, C++) and shows
them in a browser (the `ide`, TypeScript). Its filters are event processors with in-place state, so what they promise
is a statement about every run. This project models them and proves those statements.

- **Scheduler** (`Cpu*.dfy`): `sched_slice` and `thread_state` from switch, wakeup, blocked-reason and binder events,
  against an abstract scheduler (`CpuSchedule`).
- **Call stacks** (`Slice*.dfy`, `NestedMaps.dfy`): begin/end slices per thread, S/F and G/H slices by key, in one table.
- **Binder calls** (`Binder*.dfy`): cross-thread call trees over the slice stacks, alone and interleaved.
- **Protobuf reader** (`Proto*.dfy`): the wire format of the Protocol Buffers Encoding guide ("Base 128 Varints",
  "Message Structure"), with the field table and its growing overflow area.
- **Lanes and subsets** (`Dlopen*.dfy`, `FreeSize.dfy`): greedy interval lanes, and a backtracking subset search.
- **Ids** (`Process*.dfy`), **row selection** (`IndexMap*.dfy`), **clocks** (`ClockFilter*.dfy`), **constraint texts**
  (`Decimal.dfy`, `FilterConstraints*.dfy`), **frames** (`Frame*.dfy`) and the **WebSocket session** (`WebSocket*.dfy`).

Each component has its transitions as functions on values, lemmas about runs of those functions, and (`*Object.dfy`) a
class in the form of the source whose methods are proved equal to the functions. Fixed-width arithmetic is written out
(`MachineWords.dfy`).

Where a promise does not hold of the code, the code is kept and the exact condition is proved:

- The scheduler tables agree throughout exactly if no switch-out names TASK_RUNNING and none is one tick before the
  thread started (`CpuExact.AgreeThroughout`); a duration of minus one is the mark of an open row.
- Rows tile, and no thread is forgotten, exactly if no thread comes in on a cpu that is idle after such a slice
  (`CpuTimeline.TileThroughout`, `CpuTimeline.NeverEvicts`, `CpuExact.RewindEvicts`).
- A thread woken before it is first met leaving keeps that stale wakeup, and one that left in TASK_RUNNING loses its
  wakeup; otherwise a RUNNABLE row starts at the first wakeup (`CpuWakeups.RunnableStartsAtFirstWake`,
  `CpuExact.StaleWakeRewinds`, `CpuExact.RunningLeaverLosesWake`). Durations turn negative exactly if a stale wakeup is
  used and was early (`CpuDurations.DurationsNotNegative`).
- A time filter with the largest 64-bit value wraps around (`IndexMap.NoRowLost`), and a column filter that would empty
  the selection leaves it (`IndexMap.QueryIsExact`, for the time filters the index answers without approximation).
- Lanes are optimal throughout exactly if no two slices share an end time (`DlopenOptimal.OptimalThroughout`).
- Searching a message for a field ends exactly if reading does not get stuck on a field that does not parse, or the id
  is met before or at that field (`ProtoSearch.SearchEndsExactly`).
- Constraint counts are read as signed 32-bit numbers (`FilterConstraints.RoundTripExactly`).

## Model

| member | source | states |
|---|---|---|
| `CpuAgreement.TablesAgree` | trace_streamer/src/filter/cpu_filter.cpp:25-129 | over every consistent schedule, any other events interleaved, the RUNNING rows of `thread_state` and the non-idle rows of `sched_slice` are the same slices in the same order (start, duration, cpu, thread), and the open RUNNING rows are exactly the threads now on a cpu |
| `CpuAgreement.StepAgrees` | trace_streamer/src/filter/cpu_filter.cpp:105-176 | every event keeps both tables in agreement with the abstract scheduler, row positions included |
| `CpuExact.AgreeThroughout` | trace_streamer/src/filter/cpu_filter.cpp:25-129 | over any run in which switches replace what their cpu runs, the tables agree at every moment if and only if every switch-out of a thread names a waiting state and none is one tick before the thread started |
| `CpuExact.Disagrees` | trace_streamer/src/filter/cpu_filter.cpp:25-104 | a switch that breaks either condition makes the tables disagree at once |
| `CpuExact.RewindDisagrees` | trace_streamer/src/filter/cpu_filter.cpp:59-104 | concrete input: a thread said to leave one tick before it started leaves the tables disagreeing |
| `CpuTimeline.RowsTile` | trace_streamer/src/filter/cpu_filter.cpp:25-104 | over every run of possible switches in which no thread comes in on a cpu that is idle after a slice closed one tick before it began, whatever states threads leave in, each thread's rows tile time: each ends where the next starts, the last one is open and is the remembered one |
| `CpuTimeline.TileThroughout` | trace_streamer/src/filter/cpu_filter.cpp:25-104 | over any run of possible switches, rows tile at every moment if and only if the run is of that kind |
| `CpuTimeline.NeverEvicts` | trace_streamer/src/filter/cpu_filter.cpp:45-57 | over any run of possible switches, the branch that forgets a thread found running on the cpu is never taken if and only if the run is of that kind |
| `CpuTimeline.EvictsExactly` | trace_streamer/src/filter/cpu_filter.cpp:45-57 | a switch-in takes that branch exactly when its cpu is idle after a slice closed one tick before it began |
| `CpuExact.RewindEvicts` | trace_streamer/src/filter/cpu_filter.cpp:45-57 | concrete input: after such a slice the next thread to come in makes the filter forget the first one, whose rows no longer tile |
| `CpuTimeline.OpenExactly` | trace_streamer/src/filter/cpu_filter.cpp:25-104 | over the same runs, a row is open exactly if it is the remembered one or its successor starts one tick before it |
| `CpuWakeups.HeldIsPending` | trace_streamer/src/filter/cpu_filter.cpp:229-287 | over every settled run, whatever states threads leave in, while a thread is not running the filter holds exactly its pending wakeup: the first sched_wakeup since it stopped running, or a stale one from before it was first met |
| `CpuWakeups.SwitchInRecordsPending` | trace_streamer/src/filter/cpu_filter.cpp:25-44 | over every settled run, whatever states threads leave in, a switch-in appends a RUNNABLE row from the pending wakeup to the switch, if there is one and the thread had not left in TASK_RUNNING, and a RUNNING row; the only other new row is the outgoing thread's, and old rows change in duration only |
| `CpuWakeups.RunnableStartsAtFirstWake` | trace_streamer/src/filter/cpu_filter.cpp:229-287 | the RUNNABLE row starts at the first sched_wakeup since the thread stopped running (and is absent without one) if and only if no different stale wakeup is held, or, for a thread that left in TASK_RUNNING, if and only if there was no such wakeup |
| `CpuDurations.DurationsNotNegative` | trace_streamer/src/filter/cpu_filter.cpp:25-104 | with nondecreasing timestamps no duration of a thread's rows is negative if and only if none of its switch-ins, after leaving in another state than TASK_RUNNING, used a wakeup from before the switch-out that kept it |
| `CpuDurations.OrderedExactly` | trace_streamer/src/filter/cpu_filter.cpp:59-104 | with nondecreasing timestamps a thread's rows start in row order under exactly the same condition |
| `CpuDurations.FirstSwitchedInIsNeverStale` | trace_streamer/src/filter/cpu_filter.cpp:59-104 | a thread first met when it is switched in never holds a stale wakeup and never uses one |
| `CpuWakeups.RunLeft` | trace_streamer/src/filter/cpu_filter.cpp:59-104 | while a thread is not running its last row, if it has any, starts at its last switch-out and is remembered with the state it left in |
| `CpuExact.RunningLeaverLosesWake` | trace_streamer/src/filter/cpu_filter.cpp:268-287 | concrete input: a thread that leaves in TASK_RUNNING and is then woken gets no RUNNABLE row, though no stale wakeup is held |
| `CpuExact.StaleWakeRewinds` | trace_streamer/src/filter/cpu_filter.cpp:59-104 | concrete input: a thread woken before it is first met leaving gets a waiting row with a negative duration |
| `CpuBinder.BinderLabelOrigin` | trace_streamer/src/filter/cpu_filter.cpp:105-141 | whatever the trace, a row becomes RUNNABLE_BINDER only on a receive by the thread to which the sender, after sending, was switched out directly in state TASK_NEW; it is the row that switch appended, and the relabelled sched row is the one that switch closed |
| `CpuBinder.RunExplained` | trace_streamer/src/filter/cpu_filter.cpp:289-328 | every pending transaction has its send, and every transaction with rows the switch that noted them, in this order |
| `CpuFilterObject.Filter.UpdateDuration` | trace_streamer/src/trace_data/trace_stdtype/ftrace/sched_stdtype.cpp:76-82 | closes an open thread_state row at the given time and leaves a closed one alone |
| `CpuFilterObject.Filter.CheckWakeupEvent` | trace_streamer/src/filter/cpu_filter.cpp:268-287 | the new table and maps of a pending wakeup |
| `CpuFilterObject.Filter.ProcNextPidSwitchEvent` | trace_streamer/src/filter/cpu_filter.cpp:25-57 | the new table and maps of a switch-in |
| `CpuFilterObject.Filter.ProcPrevPidSwitchEvent` | trace_streamer/src/filter/cpu_filter.cpp:59-104 | the new table and maps of a switch-out, or no change and no row when the thread already runs elsewhere |
| `CpuFilterObject.Filter.TransactionClear` | trace_streamer/src/filter/cpu_filter.cpp:316-328 | forgets a transaction and both threads' entries for it |
| `CpuFilterObject.Filter.InsertSwitchEvent` | trace_streamer/src/filter/cpu_filter.cpp:105-141 | the whole new state of a sched_switch |
| `CpuFilterObject.Filter.InsertWakeupEvent` | trace_streamer/src/filter/cpu_filter.cpp:229-234 | the whole new state of a sched_wakeup |
| `CpuFilterObject.Filter.InsertBlockedReasonEvent` | trace_streamer/src/filter/cpu_filter.cpp:143-176 | the whole new state of a sched_blocked_reason, and whether the thread was waiting for one |
| `CpuFilterObject.Filter.InsertRunnableBinderEvent` | trace_streamer/src/filter/cpu_filter.cpp:289-301 | the whole new state of a binder send |
| `CpuFilterObject.Filter.InsertRunnableBinderRecvEvent` | trace_streamer/src/filter/cpu_filter.cpp:302-315 | the whole new state of a binder receive |
| `CpuFilterObject.Filter.Replay` | trace_streamer/src/filter/cpu_filter.cpp:25-328 | replaying any events gives the state the run lemmas speak of; on a consistent schedule both tables report the same slices, and on a settled run the rows tile |
| `SliceCallStacks.CallStacksAreForests` | trace_streamer/src/filter/slice_filter.cpp:255-387 | for every interleaving over threads, with keyed events in between, with per-thread nondecreasing time and nesting below 255: depth is parent depth plus one, children lie inside parents, siblings do not overlap, every open row is on its thread's stack at its depth, and the stack holds as many open rows as the events nest |
| `SliceCallStacks.StackIsPath` | trace_streamer/src/filter/slice_filter.cpp:307-387 | the open rows of a stack are a path from a root: each one's parent is the one below it |
| `SliceForest.CloseIsOpenPart` | trace_streamer/src/filter/slice_filter.cpp:255-286 | on a forest, closing unmatched slices removes exactly a zero-length row on top |
| `SliceForest.StartForest` | trace_streamer/src/filter/slice_filter.cpp:307-353 | starting a slice keeps the forest |
| `SliceForest.CompleteForest` | trace_streamer/src/filter/slice_filter.cpp:361-387 | ending a slice without category and name keeps the forest |
| `SliceLedger.FClosesItsS` | trace_streamer/src/filter/slice_filter.cpp:474-502 | over every run F closes the row of the one open S with its key, never closed before, or changes nothing; an id always leads to a row |
| `SliceLedger.HClosesLatestG` | trace_streamer/src/filter/slice_filter.cpp:530-557 | over every run H closes the most recently opened of the open G rows of its key, never closed before; an id always leads to a row |
| `SliceLedger.KeyedRowsAccounted` | trace_streamer/src/filter/slice_filter.cpp:441-557 | every keyed row is open under exactly one key or ended, and none is ended twice |
| `SliceKeyed.PairsOpenRefines` | trace_streamer/src/filter/slice_filter.cpp:441-473 | the two S/F maps refine one map from keys to open rows: opening adds the key |
| `SliceKeyed.PairsCloseRefines` | trace_streamer/src/filter/slice_filter.cpp:474-502 | closing looks up and removes the key; a known key always has a row |
| `SliceKeyed.PilesOpenRefines` | trace_streamer/src/filter/slice_filter.cpp:503-529 | the two G/H maps refine a map from keys to stacks of open rows: opening pushes |
| `SliceKeyed.PilesCloseRefines` | trace_streamer/src/filter/slice_filter.cpp:530-557 | closing pops; a known key always has a row |
| `SliceFilterObject.Filter.CloseUnMatchedSlice` | trace_streamer/src/filter/slice_filter.cpp:255-286 | the loops that drop ended slices from a stack compute what the forest lemmas speak of and change no row |
| `SliceFilterObject.Filter.MatchingIncompleteSliceIndex` | trace_streamer/src/filter/slice_filter.cpp:287-306 | the position of the innermost matching incomplete slice, or none |
| `SliceFilterObject.Filter.StartSlice` | trace_streamer/src/filter/slice_filter.cpp:307-353 | the new rows, stack and row number of a begin |
| `SliceFilterObject.Filter.CompleteSlice` | trace_streamer/src/filter/slice_filter.cpp:361-387 | the new rows, stack and closed row of an end |
| `SliceFilterObject.Filter.AddArgs` | trace_streamer/src/filter/slice_filter.cpp:420-440 | the row that arguments go to |
| `SliceFilterObject.Filter.StartAsyncSlice` | trace_streamer/src/filter/slice_filter.cpp:441-473 | the new state of an S event |
| `SliceFilterObject.Filter.FinishAsyncSlice` | trace_streamer/src/filter/slice_filter.cpp:474-502 | the new state of an F event |
| `SliceFilterObject.Filter.StartGEvent` | trace_streamer/src/filter/slice_filter.cpp:503-529 | the new state of a G event |
| `SliceFilterObject.Filter.FinishHEvent` | trace_streamer/src/filter/slice_filter.cpp:530-557 | the new state of an H event |
| `NestedMaps.TripleMap.Insert` | trace_streamer/src/base/triple_map.h:32-42 | inserting into the nested maps is inserting into one flat map of triples |
| `NestedMaps.TripleMap.Find` | trace_streamer/src/base/triple_map.h:43-51 | finding is a flat lookup, with the given value for a miss |
| `NestedMaps.TripleMap.Erase` | trace_streamer/src/base/triple_map.h:52-54 | erasing is removing the triple from the flat map |
| `NestedMaps.FlatInsert` | trace_streamer/src/base/triple_map.h:32-42 | inserting into an inner map changes the flat map at one triple only |
| `NestedMaps.FlatErase` | trace_streamer/src/base/triple_map.h:52-54 | erasing from an inner map removes one triple only |
| `NestedMaps.DoubleMap.InsertThenFind` | trace_streamer/src/base/double_map.h:33-61 | a double map returns what was inserted last for a pair and is unchanged elsewhere |
| `BinderCalls.CallRestores` | trace_streamer/src/filter/binder_filter.cpp:54-151 | every finite, properly nested tree of synchronous calls, re-entrant callbacks included, restores every thread's stack and the pending maps, and lays out for every call a transaction slice around the callee's reply slice around the inner calls |
| `BinderInterleaving.GroupRunsAlone` | trace_streamer/src/filter/binder_filter.cpp:54-161 | over every sequence of binder events, one-way calls and misdirected replies included, a group of threads that shares no transaction id with other threads sees exactly the stacks, slices and pending entries that its own events would have made alone, up to row numbers |
| `BinderInterleaving.CallAmongOthers` | trace_streamer/src/filter/binder_filter.cpp:54-161 | a tree of calls restores the stacks of its threads and its pending entries, and its slices are laid out in order among the new rows, whatever other threads do in between |
| `BinderInterleaving.CallsInterleave` | trace_streamer/src/filter/binder_filter.cpp:54-161 | any number of call trees interleaved in any way on disjoint threads restore every stack and all pending maps together, each with its slices laid out |
| `BinderCalls.TransactionContainsReply` | trace_streamer/src/filter/binder_filter.cpp:54-151 | the caller's transaction slice is closed and its interval contains the callee's reply slice |
| `BinderFilterObject.Filter.SendTraction` | trace_streamer/src/filter/binder_filter.cpp:54-106 | the whole new state of a send |
| `BinderFilterObject.Filter.ReceiveTraction` | trace_streamer/src/filter/binder_filter.cpp:108-161 | the whole new state of a receive |
| `ProtoEncoding.FieldsRoundTrip` | trace_streamer/src/proto_reader/proto_reader.cpp:132-231 | for every list of valid fields and every id of the table, the overflow entries with that id followed by the slot are the fields with that id in the order written |
| `ProtoEncoding.ReadsField` | trace_streamer/src/proto_reader/proto_reader.cpp:132-164 | reading an encoded field gives that field and the position after it, for all four wire types |
| `ProtoEncoding.VarIntRoundTrip` | trace_streamer/src/proto_reader/proto_reader_help.cpp:19-35 | decoding an encoded varint continues to exactly its value and end, from any accumulator and shift |
| `ProtoEncoding.BytesRecovered` | trace_streamer/src/proto_reader/proto_reader.cpp:77-98 | a length-delimited area points at exactly the bytes written |
| `ProtoReader.ParseOne` | trace_streamer/src/proto_reader/proto_reader.cpp:132-164 | on every byte string an accepted or skipped field moves the cursor forward and not past the end, an aborted one does not move it, and an accepted area has an id |
| `ProtoReader.OneByteTag` | trace_streamer/src/proto_reader/proto_reader.cpp:42-60 | the one-byte tag path agrees with VarIntDecode |
| `ProtoReader.TableKeepsWireOrder` | trace_streamer/src/proto_reader/proto_reader.cpp:191-231 | on every byte string, for each id, overflow entries then slot are its areas in wire order |
| `ProtoReaderObject.Reader.VarIntDecode` | trace_streamer/src/proto_reader/proto_reader_help.cpp:19-35 | the loop reads only inside the buffer and computes the varint or fails |
| `ProtoReaderObject.Reader.GetNextProtoTag` | trace_streamer/src/proto_reader/proto_reader.cpp:42-60 | the tag and the position after it, or failure at the end of the buffer |
| `ProtoReaderObject.Reader.ParseOneDataArea` | trace_streamer/src/proto_reader/proto_reader.cpp:132-164 | status, position and area of the next field |
| `ProtoReaderObject.Reader.MoveToLargerHeapStorage` | trace_streamer/src/proto_reader/proto_reader.cpp:223-231 | the storage grows and keeps its contents |
| `ProtoReaderObject.Reader.ParseAllDataAreas` | trace_streamer/src/proto_reader/proto_reader.cpp:191-221 | terminates on every byte string with the table of all its areas |
| `ProtoReaderObject.Reader.ReadNextDataArea` | trace_streamer/src/proto_reader/proto_reader.cpp:181-189 | on every byte string, the next report and the position after it |
| `ProtoReaderObject.Reader.FindDataArea` | trace_streamer/src/proto_reader/proto_reader.cpp:166-179 | whenever the search can end, the first report with the id, or none; the read cursor is put back |
| `ProtoSearch.SearchEndsExactly` | trace_streamer/src/proto_reader/proto_reader.cpp:166-179 | on every byte string and for every id, the search ends if and only if reading stops without a stuck field, or an area read before has the id, or the stuck field has it; then it returns the first of these |
| `ProtoSearch.StuckStays` | trace_streamer/src/proto_reader/proto_reader.cpp:181-189 | where reading stops it reports the same area again and does not move |
| `ProtoSearch.ReadsInOrder` | trace_streamer/src/proto_reader/proto_reader.cpp:181-189 | reading reports the areas in wire order and then the stuck one |
| `ProtoSearch.SearchesEncoded` | trace_streamer/src/proto_reader/proto_reader.cpp:166-179 | searching an encoded list of fields ends with the first field that has the id |
| `ProtoSearch.FirstIsHead` | trace_streamer/src/proto_reader/proto_reader.cpp:166-179 | the first area with an id is the first of its occurrences in wire order |
| `ProtoSearch.EncodedIsClean` | trace_streamer/src/proto_reader/proto_reader.cpp:166-189 | reading an encoded list of fields stops without a stuck field |
| `ProtoSearch.TruncatedFieldIsStuck` | trace_streamer/src/proto_reader/proto_reader.cpp:166-189 | concrete input: on a field cut short the search for its own id finds it and the search for any other never ends |
| `ProtoSearch.UnknownWireTypeIsStuck` | trace_streamer/src/proto_reader/proto_reader.cpp:155-161 | concrete input: a field of an unknown wire type is stuck in a message that is not cut short |
| `ProtoReaderObject.Reader.GetRepeated` | trace_streamer/src/proto_reader/include/proto_reader.h:37-100 | iterating over a repeated field yields its occurrences, overflow first, slot last |
| `DlopenOptimal.OptimalThroughout` | trace_streamer/src/filter/app_start_filter.cpp:240-307 | with nondecreasing starts and positive lengths, the greedy is optimal after every slice if and only if the ends of the process's slices are distinct |
| `DlopenOptimal.LanesAreOptimal` | trace_streamer/src/filter/app_start_filter.cpp:240-307 | for slices of a process with nondecreasing starts, positive lengths and distinct ends: equal depths never overlap, the lanes are exactly 0..n-1, and n is the largest number of slices live at once |
| `DlopenOptimal.SharedEndFails` | trace_streamer/src/filter/app_start_filter.cpp:240-265 | a slice that shares its end with an earlier one leaves at once more slices live at one time than there are lanes |
| `DlopenOptimal.SharedEndOverlaps` | trace_streamer/src/filter/app_start_filter.cpp:240-265 | concrete input: a shared end time makes two slices of one depth overlap |
| `DlopenLanes.CalcDepthByTimeStamp` | trace_streamer/src/filter/app_start_filter.cpp:240-265 | the loop picks the free lane of least depth and re-keys it, or opens a new lane |
| `DlopenLanes.AssignDepths` | trace_streamer/src/filter/app_start_filter.cpp:266-307 | the depths of all slices, process by process, in the order of the table |
| `FreeSize.FindFreeSize` | ide/src/trace/SpApplicationPublicFunc.ts:499-524 | the result is a strictly increasing index list whose sum fits and is the largest of all subsets that fit; of equals it is the first in include-first order, or empty when the best sum is 0 |
| `FreeSize.ExploreFinds` | ide/src/trace/SpApplicationPublicFunc.ts:504-520 | what the backtracking search finds below every node of the search tree |
| `FreeSize.Search.ReBackFind` | ide/src/trace/SpApplicationPublicFunc.ts:504-520 | the recursive search computes the best of the remaining choices and restores the shared size and selection |
| `ProcessIds.IdsAreStable` | trace_streamer/src/filter/process_filter.cpp:81-101 | two lookups, however far apart in a run, return the same internal thread id if and only if they ask for the same tid and nonzero pid; the second of equal ones changes nothing |
| `ProcessIds.ReachableTables` | trace_streamer/src/filter/process_filter.cpp:120-246 | in every reachable state a tid has at most one unassigned thread and every process but the idle one owns its main thread |
| `ProcessIds.GetKeeps` | trace_streamer/src/filter/process_filter.cpp:81-101 | the thread returned belongs to the tid and process asked for, and every id keeps its meaning |
| `ProcessIds.CreateKeeps` | trace_streamer/src/filter/process_filter.cpp:228-246 | creating a process gives it one new internal id and a main thread, takes up an unassigned thread with that number, and touches no other thread |
| `ProcessIds.LookupFinds` | trace_streamer/src/filter/process_filter.cpp:145-175 | the lookup finds the pair's own thread if there is one, else the unassigned thread of the tid, else none |
| `ProcessFilterObject.Filter.GetInternalTidOfPid` | trace_streamer/src/filter/process_filter.cpp:145-165 | the scan over the tid's threads |
| `ProcessFilterObject.Filter.GetInternalTid` | trace_streamer/src/filter/process_filter.cpp:167-175 | the thread made last for the tid |
| `ProcessFilterObject.Filter.NewThread` | trace_streamer/src/filter/process_filter.cpp:210-217 | appends an unassigned thread and lists it under its tid |
| `ProcessFilterObject.Filter.NewProcess` | trace_streamer/src/filter/process_filter.cpp:219-226 | appends a process and maps its pid to it |
| `ProcessFilterObject.Filter.GetOrCreateThreadWithPid` | trace_streamer/src/filter/process_filter.cpp:81-101 | the whole new state and the id; the mutual recursion terminates |
| `ProcessFilterObject.Filter.CreateProcessMaybe` | trace_streamer/src/filter/process_filter.cpp:228-246 | the whole new state and the id; the mutual recursion terminates |
| `ProcessFilterObject.Filter.UpdateOrCreateThread` | trace_streamer/src/filter/process_filter.cpp:120-144 | the thread made last for the tid, or a new one |
| `IndexMap.NoRowLost` | trace_streamer/src/base/index_map.cpp:139-167 | a row that all filters ask for stays selected to the end, except exactly when "at most the largest 64-bit time" wraps around and its time is not 0 |
| `IndexMap.LargestTimeLosesRows` | trace_streamer/src/base/index_map.cpp:139-167 | concrete input: that wrap-around drops a row |
| `IndexMap.QueryIsExact` | trace_streamer/src/base/index_map.h:41-135 | with exact time filters first, a query selects exactly the wanted rows in row order if and only if some row is wanted or nothing was selected before the column filters cut it down |
| `IndexMap.RunIsExact` | trace_streamer/src/base/index_map.h:41-128 | filtering equals selecting by all filters, with the same exact condition, from any starting selection |
| `IndexMapObject.Cursor.ConvertToIndexMap` | trace_streamer/src/base/index_map.cpp:26-42 | a range becomes the list of the same rows |
| `IndexMapObject.Cursor.Intersect` | trace_streamer/src/base/index_map.cpp:61-83 | a range shrinks; of a list the rows inside stay, or all of them if none is |
| `IndexMapObject.Cursor.FilterTS` | trace_streamer/src/base/index_map.cpp:139-167 | on a range over a sorted column the binary searches select exactly the rows the filter keeps; on a list the bounds are those found among the first times |
| `IndexMapObject.ListFilterLosesRow` | trace_streamer/src/base/index_map.cpp:61-83 | concrete input: on a list a time filter loses a row that satisfies it |
| `IndexMapObject.Cursor.RemoveNullElements` | trace_streamer/src/base/index_map.h:190-220 | selects the rows that have a time |
| `IndexMapObject.Cursor.ProcessData` | trace_streamer/src/base/index_map.h:41-67 | keeps the matching rows, or the old list when none matches; scans the column when nothing was selected before |
| `IndexMapObject.Cursor.MixRange` | trace_streamer/src/base/index_map.h:68-128 | the new selection of a column filter |
| `IndexMapObject.Cursor.SortBy` | trace_streamer/src/base/index_map.cpp:265-273 | where a scan starts and which way it goes |
| `IndexMapObject.Cursor.Next` | trace_streamer/src/base/index_map.cpp:90-101 | the next position, staying put at the end |
| `IndexMapObject.Cursor.Visit` | trace_streamer/src/base/index_map.cpp:246-273 | a scan by Eof, CurrentRow and Next visits the selected rows once each, upwards or downwards |
| `IndexMapObject.Cursor.Answer` | trace_streamer/src/base/index_map.cpp:139-167 | filters in turn and a scan answer with the rows the query lemmas speak of |
| `ClockFilter.OneSnapshot` | trace_streamer/src/base/clock_filter.cpp:45-91 | with one snapshot of distinct clocks a conversion adds the difference of the two clocks modulo 2^64, for every timestamp |
| `ClockFilter.OneSnapshotComposes` | trace_streamer/src/base/clock_filter.cpp:45-91 | there and back is the identity and going by way of a third clock changes nothing |
| `ClockFilter.LatestSnapshot` | trace_streamer/src/base/clock_filter.cpp:45-63 | with several snapshots a conversion uses the latest one not after the input, else the earliest |
| `ClockFilter.LatestExists` | trace_streamer/src/base/clock_filter.cpp:45-63 | with increasing times there is such a snapshot for every input |
| `ClockFilter.PartnersHit` | trace_streamer/src/base/clock_filter.cpp:45-63 | each snapshot time is converted to its partner exactly |
| `ClockFilter.SegmentRoundTrip` | trace_streamer/src/base/clock_filter.cpp:45-63 | a round trip is the identity if and only if both ways use the same offset, as they do within matching segments |
| `ClockFilter.KeysApart` | trace_streamer/src/base/clock_filter.cpp:28-35 | the text keys of different clock pairs differ |
| `ClockFilter.SnapshotsInTurn` | trace_streamer/src/base/clock_filter.cpp:76-91 | adding snapshots one after the other adds the links of all of them |
| `ClockFilterObject.Filter.Convert` | trace_streamer/src/base/clock_filter.cpp:45-63 | the lookup and the unsigned arithmetic on a signed offset |
| `ClockFilterObject.Filter.AddConvertClockMap` | trace_streamer/src/base/clock_filter.cpp:65-75 | the new ordered map; an entry already there stays |
| `ClockFilterObject.Filter.AddClockSnapshot` | trace_streamer/src/base/clock_filter.cpp:76-91 | the nested loops link every two clocks both ways |
| `FilterConstraints.RoundTrip` | trace_streamer/src/base/filter_constraints.cpp:51-121 | reading back the text of any two lists gives the two lists, negative columns and empty lists included |
| `FilterConstraints.RoundTripExactly` | trace_streamer/src/base/filter_constraints.cpp:88-121 | for lists of any length that holds if and only if both counts fit a signed 32-bit number |
| `FilterConstraints.TooManyConstraints` | trace_streamer/src/base/filter_constraints.cpp:88-121 | with too many constraints the assertion that an O follows fails, or, if strtol fails on the count, both lists come out empty |
| `FilterConstraints.TooManyOrderBys` | trace_streamer/src/base/filter_constraints.cpp:88-121 | with too many order-bys only as many as the wrapped count come out, or none if strtol fails on it |
| `FilterConstraints.TextIsInjective` | trace_streamer/src/base/filter_constraints.cpp:51-65 | different lists, of any lengths, never share a text |
| `Decimal.StrtolReads` | trace_streamer/src/base/filter_constraints.cpp:67-86 | strtol reads a printed 64-bit number back and stops right after it |
| `FilterConstraintsObject.Constraints.ToString` | trace_streamer/src/base/filter_constraints.cpp:51-65 | the text of the two lists |
| `FilterConstraintsObject.Constraints.GetColAndOp` | trace_streamer/src/base/filter_constraints.cpp:67-86 | one entry and the text after it; the byte stays when the column is out of range |
| `FilterConstraintsObject.Constraints.FromString` | trace_streamer/src/base/filter_constraints.cpp:88-121 | appends what the text says, with renumbered indices and no support flag, or fails where an assertion does |
| `FilterConstraintsObject.Constraints.AddConstraint` | trace_streamer/src/base/filter_constraints.cpp:22-29 | appends a constraint |
| `FilterConstraintsObject.Constraints.AddOrderBy` | trace_streamer/src/base/filter_constraints.cpp:38-43 | appends an order-by |
| `FrameLifecycle.NeverBothEnded` | trace_streamer/src/filter/frame_filter.cpp:136-215 | in every reachable state, whatever the timestamps, no frame in a queue has ended both its vsync and its GPU work |
| `FrameLifecycle.FinishedAtLastEnd` | trace_streamer/src/filter/frame_filter.cpp:136-215 | whatever the timestamps, every finished frame has its vsync ended and no GPU work left, lasts to the last end of a vsync or of GPU work that reached it in its queue, and is late exactly if that is after its expected end |
| `FrameLifecycle.FinishedAtTheLater` | trace_streamer/src/filter/frame_filter.cpp:136-215 | with nondecreasing timestamps a finished render-service frame ended at the later of vsync end and GPU end, any other at its vsync end, and is late exactly if that is after its expected end |
| `FrameLifecycle.FramesConserved` | trace_streamer/src/filter/frame_filter.cpp:27-70 | frames begun are the frames queued, finished and erased, each in one place only, and as many as there were begin events |
| `FrameLifecycle.LeavesOnce` | trace_streamer/src/filter/frame_filter.cpp:136-215 | once out of its queue a frame never returns and its row is final |
| `FrameFilterObject.Filter.BeginVsyncEvent` | trace_streamer/src/filter/frame_filter.cpp:27-54 | both rows of a new frame, queued last |
| `FrameFilterObject.Filter.MarkRSOnDoCompositionEvent` | trace_streamer/src/filter/frame_filter.cpp:56-70 | marks the last frame of the queue |
| `FrameFilterObject.Filter.BeginRSTransactionData` | trace_streamer/src/filter/frame_filter.cpp:72-90 | numbers the first frame of the queue and notes it under its thread and number |
| `FrameFilterObject.Filter.EndVsyncEvent` | trace_streamer/src/filter/frame_filter.cpp:136-171 | ends, erases or keeps the last frame |
| `FrameFilterObject.Filter.StartFrameQueue` | trace_streamer/src/filter/frame_filter.cpp:173-188 | starts the GPU work of the first frame |
| `FrameFilterObject.Filter.EndFrameQueue` | trace_streamer/src/filter/frame_filter.cpp:189-215 | records the GPU work of the first frame and ends the frame if its vsync has ended |
| `WebSocketCodec.RoundTrip` | ide/src/webSocket/Util.ts:23-70 | decoding gives back every field at its width, the 64-bit session included, and the data filled up to the announced length |
| `WebSocketManager.WhatIsSent` | ide/src/webSocket/WebSocketManager.ts:37-138 | over every run: opening a socket sends the login, nothing else does; every other frame goes out only after an acknowledgement on the open socket in use and decodes to the type, cmd, data and most recently acknowledged session it was built from |
| `WebSocketManager.AtMostOne` | ide/src/webSocket/WebSocketManager.ts:37-66 | over every run live sockets plus pending reconnects are at most one, and so are heartbeat timers |
| `WebSocketManager.CleanCloseIsFinal` | ide/src/webSocket/WebSocketManager.ts:144-178 | a clean close (section 7.1.4 of RFC 6455) leaves no socket, timer or reconnect, and nothing is ever sent again |
| `WebSocketObject.EncodeFrame` | ide/src/webSocket/Util.ts:23-48 | writing with a moving index builds exactly the encoded frame |
| `WebSocketObject.Manager.ConnectWebSocket` | ide/src/webSocket/WebSocketManager.ts:37-39 | one more socket, in use |
| `WebSocketObject.Manager.OnOpen` | ide/src/webSocket/WebSocketManager.ts:40-45 | starts the heartbeat, then logs in |
| `WebSocketObject.Manager.OnMessage` | ide/src/webSocket/WebSocketManager.ts:48-88 | heartbeats are ignored, a login acknowledgement makes the manager ready, anything else goes to its listener |
| `WebSocketObject.Manager.OnClose` | ide/src/webSocket/WebSocketManager.ts:61-65 | forgets the login, clears the heartbeat and, unless clean, plans a reconnect |
| `WebSocketObject.Manager.OnTimeout` | ide/src/webSocket/WebSocketManager.ts:150-152 | a planned reconnect opens a new socket |
| `WebSocketObject.Manager.OnBeat` | ide/src/webSocket/WebSocketManager.ts:156-160 | a heartbeat is a message like any other |
| `WebSocketObject.Manager.SendMessage` | ide/src/webSocket/WebSocketManager.ts:123-138 | sends nothing before login, else a frame with the session |
| `WebSocketObject.Manager.RegisterMessageListener` | ide/src/webSocket/WebSocketManager.ts:113-117 | the first listener of a type stays |

## Left out

- Args sets, thread and process counters, names, start times and memory marks: the filters store them beside the state modelled here.
- Long-trace row rebasing (`UpdateReadySize` in the cpu, frame and slice filters), `Finish`, `Clear` and process exit and free events.
- `ToPrimaryTraceTime`, which is `Convert` to a fixed clock, and reading a snapshot from a file header.
- IRQ, IPI, soft-IRQ and DMA-fence slices, and ends with an explicit category and name used by lock tracing; `CompleteSlice` models such ends, the forest lemmas are about ends without them.
- In `CloseUnMatchedSlice` the loop over child slices writes a row's own duration to itself; the model has it as no change.
- `InsertSwitchEvent` passes a task state where `TransactionClear` takes a thread; the model does the same.
- Task states are below 2^31 and cpu ids below 2^32, so the source's narrowing casts are the identity; row counts are unbounded.
- Slice timestamps are unbounded; binder threads are named by their internal ids.
- SliceFilterObject.Filter.AddArgs: gives the row; the args set that the source creates or extends for it is not modelled.
- SliceFilterObject.Filter.StartAsyncSlice: the number of S events stays below 2^64 - 1, the value that marks a miss.
- BinderCalls.CallRestores: nesting stays within 255 levels and ids of the tree are not pending before it; trees among other traffic are in BinderInterleaving.
- ProtoReaderObject.Reader.FindDataArea: for exactly the messages and ids on which the search ends; on all others the source's loop never does.
- Proto field ids above 65535 skip only their tag, as in the source; the round trip is about ids up to 65535. Addresses are offsets, and disjoint bits are added rather than or-ed.
- The dlopen name filter chooses the slices before AssignDepths; FreeSize uses integers where the source has numbers.
- `IndexMap::Merge`, `FilterId`, and the filter counter, which nothing reads.
- IndexMapObject.Cursor.FilterTS: on an explicit list it states what the code does; the query results are about time filters before that.
- IndexMapObject.Cursor.Answer: the columns have as many cells as the table has rows, at most 2^31 - 1.
- ClockFilterObject.Filter.AddClockSnapshot: not for an empty snapshot, on which the loop bound underflows; the offset -2^63 is negated with wrap-around.
- FilterConstraints.RoundTrip: for fewer than 2^31 entries in each list; RoundTripExactly states what happens beyond.
- BeginProcessCommandUni, which links frames of two threads through the map by frame number, is not part of this model.
- WebSocketObject.Manager.OnMessage: listeners are numbers and calling one is recorded; the singleton accessor and the error log are not modelled.
- Table code, sqlite export, metrics, configuration, RPC and file handling, the Go server, device code and the user interface.
