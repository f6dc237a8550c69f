# PlayStation emulator core: a Dafny model

This project models the algorithmic cores of the emulator and proves what they promise. Each source file has its
module, in the form the code has: loops that change arrays in place are methods with loop invariants, the globals an
operation updates are fields of a class, and every such method is proved to leave exactly the state that a function
of the old state gives. What the code is for is then proved about those functions, for all inputs and all runs.
`dafny verify dfyconfig.toml` checks everything.

| module | models |
|---|---|
| `BiosQsort` | the HLE BIOS `qsort`: byte-wise exchanges, the five-region partition, recursion on the smaller side |
| `BiosHeap` | the HLE BIOS heap: in-band headers, lazy coalescing, first fit, splitting, runs of `malloc` and `free` |
| `NatSets` | counting distinct numbers, for the queue and the list walk |
| `Cycles` | 32-bit cycle arithmetic shared by the next three |
| `EventQueue` | the event queue in its array, against an unbounded clock |
| `RootCounters` | the programmable counters and the base counter that paces hsync, vblank and frames |
| `Scheduler` | the dispatch loop of the branch test over queue and counters |
| `MdecIdct`, `MdecDma` | run-length decoding and the mask-driven inverse transform, measured by the inverse cosine transform; the DMA transfers with the carry between them |
| `ImaAdpcm` | the ADPCM encoder and decoder, sector format, encode and decode loops |
| `DmaChain` | the GPU list walk, its loop detector, the ordering-table builder |
| `PpfCache` | the loop that reads a patch file, the sector cut, the patch list, its index and the search |
| `Gte` | the GTE operations on three vectors against their single forms |
| `CrcRegister`, `SubqCrc` | the Q-channel CRC of ECMA-130, section 22.3 |

## How state and machine integers appear

- A bit mask (`interrupt`, a counter's mode, the GTE error register, `used_col`) is the set of its bit numbers.
- Cycle counts are 32-bit words with explicit wrap-around. Beside them the queue keeps, as ghost state, an unbounded
  clock, every event's true due time and its rank of arrival; the proofs say when the words tell the truth about them.
- A signed overflow inside the inverse transform is left open, as C leaves it: any result is allowed, and the equality
  of the fast and the plain transform holds for every choice. Where no product overflows, the transform is the inverse
  cosine transform up to rounding.
- Event handlers other than those of the root counters and of the cycle rebase are scripts: what each dispatch
  schedules (strictly later) and cancels is an arbitrary parameter.
- `qscmp` is an arbitrary total preorder, the colour conversion of MDEC an arbitrary function of the decoded block.

## What does not hold, and when it does

- A `malloc` request above 0xfffffffc wraps to zero words. If any chunk is free it is served with a block of no words,
  whose header reads as a heap not laid out. `BiosHeap.Heap.Malloc` says that the heap stays sound exactly when the
  request is at most 0xfffffffc or no chunk is free; `BiosHeap.WrappedRequest` is a concrete case.
- `InitHeap` forms offset plus length in 32 bits. `BiosHeap.Heap.InitHeap` says the heap ends inside RAM exactly when
  that sum does not wrap; `BiosHeap.WrappedInit` is a pair that wraps.
- Counter 2 with its disable bit gets rate 0xffffffff, and its countdown reads as negative although nothing is overdue:
  `RootCounters.DisabledCountdown` says when. The root-counter event is then due again after every dispatch, so the loop
  of the branch test never ends: `Scheduler.DisabledCounterHangs`. `Scheduler.Machine.PsxRcntWmode` says that a mode
  write leaves the machine sound, or stuck in this way exactly if counter 2 is then disabled; enabling it before the
  next branch test makes the machine sound again.
- The loop detector of the GPU list walk misses loops. `DmaChain.DetectorExact` says a loop is reported exactly if
  once round it there is a single step down or a single step that is not down; `DmaChain.UnreportedLoop` is a memory
  with a list that loops over four words and is never reported.
- A patch whose end reaches less than twelve bytes into a sector makes `CheckPPFCache` copy a negative number of bytes.
  `PpfCache.CutApplicable` says exactly which patches can be applied; `PpfCache.NegativeCopy` is one that cannot.
- After a patch that was cut at a sector edge the loop over a patch file goes on too few bytes.
  `PpfCache.FileReadsBack` says a file is read back as the patches it holds exactly if none of them crosses an edge, and
  `PpfCache.PlacesExact` that every patch is read from its own place exactly if none but the last does.
  `PpfCache.CutFileFails` is a file of one patch that ends in an error.
- The index of the patch list starts from the sentinel address -1, so it misses that sector, and only that one, when the
  list begins with it: `PpfCache.IndexExact`, and `PpfCache.SentinelHides` for such a patch. Of two patches for the same
  byte position the older one wins, because a new record goes in front of its equals: `PpfCache.InsertedAdds` and
  `PpfCache.LastDecides`.
- A transfer out of the MDEC that is smaller than the bytes carried over makes `psxDma1` copy a negative number of
  bytes: `MdecDma.CopiesFit` says so of exactly these transfers, and `MdecDma.SmallTransfer` brings a decoder to where
  one would.
- The error register of `gteRTPT` is contained in the union of the three `gteRTPS` ones but need not equal it: the
  triple operation does depth cueing for the last vertex only. `Gte.RtptFlagExact` says from the vertices' quotients and
  screen coordinates when the two agree, and `Gte.RtptLosesCue` is a triangle for which they do not. `Gte.NctFlagExact`
  does the same for the colour operations, from the light and colour components; `Gte.NctLosesLimit` and
  `Gte.NcdtLosesLimit` are normals for which they disagree.

## Model

| member | source | states |
|---|---|---|
| `BiosQsort.Qexchange` | `src/psxbios.cpp:732-741` | The two byte ranges change places, byte for byte, and nothing else changes. |
| `BiosQsort.Q3exchange` | `src/psxbios.cpp:743-753` | The three byte ranges change places in a round and nothing else changes; right also when the last two are the same, as the sort calls it. |
| `BiosQsort.ExchangeRecords` | `src/psxbios.cpp:770` | A byte-wise exchange swaps exactly two records of the table. |
| `BiosQsort.RotateRecords` | `src/psxbios.cpp:787` | A three-way byte exchange rotates exactly three records of the table. |
| `BiosQsort.LesserStays` | `src/psxbios.cpp:773-776` | A lesser record on the left extends the lesser region. |
| `BiosQsort.EqualFromLeft` | `src/psxbios.cpp:769-772` | Swapping an equal record to the left edge extends the equal region and keeps all five regions. |
| `BiosQsort.EqualFromRight` | `src/psxbios.cpp:781-784` | Swapping an equal record to the right edge extends the equal region and keeps all five regions. |
| `BiosQsort.GreaterStays` | `src/psxbios.cpp:796` | A greater record on the right extends the greater region. |
| `BiosQsort.SlideUp` | `src/psxbios.cpp:786-790` | With nothing unknown on the left, one rotation moves the equal region up around a lesser record and keeps all five regions. |
| `BiosQsort.ExchangeSides` | `src/psxbios.cpp:791-794` | Exchanging a greater record on the left with a lesser one on the right settles both. |
| `BiosQsort.SlideDown` | `src/psxbios.cpp:811-812` | With nothing unknown on the right, one rotation moves the equal region down around a greater record. |
| `BiosQsort.ScanLeft` | `src/psxbios.cpp:767-777` | The scan from the left keeps the regions and ends with nothing unknown on the left or a greater record found. |
| `BiosQsort.ScanRight` | `src/psxbios.cpp:779-798` | The scan from the right keeps the regions and ends with nothing unknown on the right, or with less unknown on both sides. |
| `BiosQsort.PartitionTurn` | `src/psxbios.cpp:767-813` | Every turn either finishes the partition or leaves fewer unknown records. |
| `BiosQsort.Partition` | `src/psxbios.cpp:763-813` | The partition ends; the range is a permutation of what it was, split into less, equal and greater than the middle record, and bytes outside it are untouched. |
| `BiosQsort.OrderedOutsideParts` | `src/psxbios.cpp:800-808` | Once a range is partitioned and one outer part sorted, only pairs inside the other part can be out of order. |
| `BiosQsort.RegionsShuffle` | `src/psxbios.cpp:802-806` | Sorting an outer part leaves the range partitioned. |
| `BiosQsort.TurnDone` | `src/psxbios.cpp:800-808` | Partitioning and sorting one side keeps the permutation and leaves only the other side to be ordered. |
| `BiosQsort.DepthStep` | `src/psxbios.cpp:801-807` | A call on a part of at most half the size costs one level of nesting within the logarithmic bound. |
| `BiosQsort.SortingTurn` | `src/psxbios.cpp:800-808` | A turn of the outer loop keeps its invariant, whichever side is the one not larger. |
| `BiosQsort.QsortTurn` | `src/psxbios.cpp:760-809` | A turn sorts the side that is not larger and shrinks what remains. |
| `BiosQsort.MoreThanOne` | `src/psxbios.cpp:760` | The byte count the loop tests exceeds the width exactly if there is more than one record of some width, so width 0 returns at once. |
| `BiosQsort.QsortMain` | `src/psxbios.cpp:755-814` | It ends with the range a sorted permutation of itself, memory outside the range untouched, and calls nested at most log2 of the record count deep. |
| `BiosQsort.PsxBiosQsort` | `src/psxbios.cpp:816-822` | For every table, record width (0 included) and total preorder: the table becomes a sorted permutation of itself, no other byte changes, and 2 to the nesting depth is at most the record count. |
| `BiosHeap.CoalesceHasNoFreeNeighbours` | `src/psxbios.cpp:837-876` | After the coalescing pass no two neighbouring chunks are both free. |
| `BiosHeap.CoalesceKeeps` | `src/psxbios.cpp:837-876` | The pass keeps the extent of the heap and every allocated block where and as large as it is. |
| `BiosHeap.FitIsRun` | `src/psxbios.cpp:891-905` | After the pass a chunk fits a request exactly if a run of adjacent free chunks, headers merged, fitted it before. |
| `BiosHeap.TakeAddsBlock` | `src/psxbios.cpp:907-919` | Taking or splitting a free chunk adds exactly the new block. |
| `BiosHeap.TakeHasNoFreeNeighbours` | `src/psxbios.cpp:915-919` | The remainder of a split chunk never lies beside another free one. |
| `BiosHeap.MallocFailsOnlyWithoutRoom` | `src/psxbios.cpp:837-905` | A request fails if and only if no run of adjacent free chunks, headers merged, can hold it. |
| `BiosHeap.MallocLeavesNoFreeNeighbours` | `src/psxbios.cpp:837-919` | After any request, served or not, no two neighbouring chunks are free. |
| `BiosHeap.MallocAddsBlock` | `src/psxbios.cpp:824-926` | A request adds the block it hands out, which was not allocated before, and disturbs no other block. |
| `BiosHeap.FreeRemovesBlock` | `src/psxbios.cpp:936-937` | Freeing removes exactly that block. |
| `BiosHeap.WrappedRequest` | `src/psxbios.cpp:881` | A request of 0xffffffff gets a block of no words whose header breaks the heap. |
| `BiosHeap.RequestWraps` | `src/psxbios.cpp:881` | A non-zero request is rounded to no words exactly if it is above 0xfffffffc. |
| `BiosHeap.NoWordsFail` | `src/psxbios.cpp:878-905` | A request that wraps to no words fails exactly if no chunk is free. |
| `BiosHeap.RequestServed` | `src/psxbios.cpp:878-926` | For every request of 1 to 0xfffffffc bytes: if some run of adjacent free chunks, headers merged, has room for the bytes, a new block is handed out of the fewest words that hold them, and no other block changes; else the result is 0. |
| `BiosHeap.BlocksApart` | `src/psxbios.cpp:837-873` | Allocated blocks lie inside the heap and apart, with room for each header. |
| `BiosHeap.ProtectedIsBlock` | `src/psxbios.cpp:837-873` | A word belongs to an allocated chunk exactly if it is a header or payload word of one of the blocks. |
| `BiosHeap.StepKeepsBlocks` | `src/psxbios.cpp:824-939` | Every `malloc` or `free` keeps the allocated chunks equal to what the client holds. |
| `BiosHeap.RunKeepsBlocks` | `src/psxbios.cpp:824-939` | Over every run from the first layout: allocated chunks are exactly the blocks held, as handed out, pairwise disjoint, chunks tile the heap exactly, and no header reads as 0. |
| `BiosHeap.RunContinues` | `src/psxbios.cpp:824-939` | In every reachable heap every legal operation can be carried out. |
| `BiosHeap.ClientWritesKeepHeap` | `src/psxbios.cpp:824-939` | Whatever is written into the payload of the blocks, or outside the heap, memory holds the same heap as before. |
| `BiosHeap.InitEnd` | `src/psxbios.cpp:976-982` | The heap ends inside RAM if and only if offset plus length does not wrap, and where it then ends. |
| `BiosHeap.WrappedInit` | `src/psxbios.cpp:976-982` | A start and size whose sum wraps, so that the heap ends at the top of the address space. |
| `BiosHeap.Heap.InitHeap` | `src/psxbios.cpp:968-989` | The heap's bounds, when they lie inside RAM, and that a first word of 0 makes it a valid heap of one free chunk. |
| `BiosHeap.Heap.PassUsed` | `src/psxbios.cpp:863-869` | At an allocated chunk the collected run is written and the scan is in step with the coalesced list. |
| `BiosHeap.Heap.CombineEnd` | `src/psxbios.cpp:874-876` | The last run is written and memory is laid out as the coalesced list. |
| `BiosHeap.Heap.Combine` | `src/psxbios.cpp:837-876` | The pass rewrites memory to the coalesced list, changing no word of an allocated chunk; a first header of 0 lays the heap out. |
| `BiosHeap.Heap.Search` | `src/psxbios.cpp:878-905` | It finds the first free chunk that fits, or runs off the end exactly when none does. |
| `BiosHeap.Heap.WriteHeaders` | `src/psxbios.cpp:907-919` | Exactly the headers of the block and of its remainder are written. |
| `BiosHeap.Heap.Allocate` | `src/psxbios.cpp:907-919` | Memory represents the list with the block taken, valid exactly if the block has a word; only free space was written. |
| `BiosHeap.Heap.Malloc` | `src/psxbios.cpp:824-926` | In bytes: a request of 1 to 0xfffffffc gets a new block of the fewest words that hold it, or 0 exactly if there is no room; the new heap is that of the request; words of allocated chunks and outside the heap never change; the heap stays valid exactly if the request is at most 0xfffffffc or no chunk was free. |
| `BiosHeap.Heap.Free` | `src/psxbios.cpp:928-939` | Only the block's header changes, and its chunk is free. |
| `Cycles.SignedExact` | `src/psxevents.cpp:316-325` | A 32-bit word read as signed is the true number exactly within 2^31 of zero. |
| `Cycles.WrapShift` | `src/psxevents.cpp:186-193` | Setting both operands of a 32-bit difference back alike changes nothing. |
| `Cycles.WrapAdvance` | `src/psxcounters.cpp:173-174` | A 32-bit elapsed count follows the true one below 2^32. |
| `EventQueue.TrueTime` | `src/psxevents.cpp:316-325` | While an event is in time, the 32-bit remaining time is the true one and the due test is exact. |
| `EventQueue.ScheduledInTime` | `src/psxevents.cpp:202-203` | An event scheduled with a delay below 2^31 is in time. |
| `EventQueue.AdvanceInTime` | `src/r3000a.cpp:162-169` | It stays in time if and only if it is at most 2^31 cycles late. |
| `EventQueue.RebaseInTime` | `src/psxevents.cpp:186-193` | Setting the cycle counter to 0 and the timestamp back keeps an event in time with the same due time. |
| `EventQueue.InsertAtSplits` | `src/psxevents.cpp:379-382` | The place of a new event comes after every event due no later and before every later one. |
| `EventQueue.QueueFits` | `src/psxevents.cpp:364-402` | Distinctness alone leaves room in the array for an event that is not queued. |
| `EventQueue.AddGood` | `src/psxevents.cpp:195-210` | Scheduling keeps the queue good when only the entries other than the scheduled event's are known to be sound. |
| `EventQueue.RemoveGood` | `src/psxevents.cpp:212-236` | Removal keeps the queue good, and the front event shown. |
| `EventQueue.PopGood` | `src/psxevents.cpp:248-250` | The front event is the one due first, first-queued among ties, and taking it out keeps the queue good. |
| `EventQueue.AddAgenda` | `src/psxevents.cpp:195-210` | Scheduling puts the event on the agenda for clock plus delay, in place of what it was there for, and leaves every other event as planned. |
| `EventQueue.RemoveAgenda` | `src/psxevents.cpp:212-236` | Removal takes exactly that event off the agenda and out of the interrupt mask. |
| `EventQueue.PopAgenda` | `src/psxevents.cpp:430-440` | A dispatch takes an event off the agenda and the mask than which none is due earlier. |
| `EventQueue.AdvanceGood` | `src/r3000a.cpp:162-169` | The machine's time follows true time if and only if no queued event gets more than 2^31 cycles late. |
| `EventQueue.RebaseGood` | `src/psxevents.cpp:152-159` | The rebase to cycle 0 keeps every event's due time and remaining cycles. |
| `EventQueue.RunGood` | `src/psxevents.cpp:195-273` | Over every run of adds, removals, dispatches, rebases and passing time: each event whose bit is set is queued exactly once, sorted by true due time and arrival, with exact remaining time and due test. |
| `EventQueue.RunAgenda` | `src/psxevents.cpp:195-273` | At every step of every run the agenda, which events are to come and when, changes by what the step is for and nothing else; its events are those with a bit; and what is dispatched is an event due first. |
| `EventQueue.CancelledNotDispatched` | `src/psxevents.cpp:212-273` | Over every run: an event cancelled, and not scheduled again, is neither queued nor dispatched from then on. |
| `EventQueue.AddDue` | `src/psxevents.cpp:195-210` | Scheduling adds a due event only if the delay is 0. |
| `EventQueue.Queue.MoveTowardsBack` | `src/psxevents.cpp:444-448` | Exactly the entries of the range move up one place. |
| `EventQueue.Queue.MoveTowardsFront` | `src/psxevents.cpp:452-456` | Exactly the entries of the range move down one place. |
| `EventQueue.Queue.InsertFront` | `src/psxevents.cpp:460-465` | The used part of the array becomes the queue with the event put in, from spare room in front. |
| `EventQueue.Queue.InsertBack` | `src/psxevents.cpp:469-474` | The used part of the array becomes the queue with the event put in, from spare room behind. |
| `EventQueue.Queue.FindPlace` | `src/psxevents.cpp:379-382` | The scan by 32-bit time finds the place true time gives the event. |
| `EventQueue.Queue.Enqueue` | `src/psxevents.cpp:364-402` | The event is put at that place and no index leaves the array. |
| `EventQueue.Queue.Dequeue` | `src/psxevents.cpp:405-428` | The used part becomes the queue without the event, or stays if it was not queued. |
| `EventQueue.Queue.Add` | `src/psxevents.cpp:195-210` | The machine's state becomes that of scheduling by true time, also when the event's own timestamp was overwritten while queued; the event is planned for clock plus delay, and every other one as before. |
| `EventQueue.Queue.Remove` | `src/psxevents.cpp:212-236` | The event is neither queued nor has a bit; every other event is queued and due as before. |
| `EventQueue.Queue.RemoveFront` | `src/psxevents.cpp:430-440` | The event taken out is the front one, with its bit; every other event is queued and due as before. |
| `EventQueue.Queue.ShiftQueued` | `src/psxevents.cpp:188-190` | Exactly the queued timestamps are set back. |
| `EventQueue.Queue.RebaseCycle` | `src/psxevents.cpp:152-159` | Exactly the queued timestamps and the copy of the front one are set back. |
| `EventQueue.Queue.InitFromFreeze` | `src/psxevents.cpp:125-133` | The queue rebuilt from the saved bits and timestamps is good and shows its front, with the due times the timestamps stand for. |
| `RootCounters.WcountRuns` | `src/psxcounters.cpp:145-167` | A write sets a counter with a legal rate running: it waits for a target above 0 or for overflow. |
| `RootCounters.WcountReads` | `src/psxcounters.cpp:145-185` | The count reads back as written, modulo 2^16. |
| `RootCounters.WtargetKeepsCount` | `src/psxcounters.cpp:446-454` | A new target leaves the count as it reads. |
| `RootCounters.WmodeRuns` | `src/psxcounters.cpp:435-444` | A mode write leaves the counter running if and only if it does not disable counter 2. |
| `RootCounters.OverflowRuns` | `src/psxcounters.cpp:301-325` | An overflow takes exactly 0x10000 counts off and leaves less to catch up. |
| `RootCounters.OverflowKeepsCount` | `src/psxcounters.cpp:301-306` | The count the guest reads is the same before and after an overflow is dealt with. |
| `RootCounters.ReachTargetRuns` | `src/psxcounters.cpp:271-295` | At its target a counter takes the target off or goes on to overflow, and has less to catch up either way. |
| `RootCounters.ResetCatchesUp` | `src/psxcounters.cpp:265-326` | Resetting an overdue counter drops (elapsed cycles, pending target) lexicographically and leaves it running. |
| `RootCounters.ResetKeepsIrqState` | `src/psxcounters.cpp:285-322` | Raising an interrupt sets the flag that it was raised; the flag and the repeat bit stay, and without the bit a set flag blocks the next one. |
| `RootCounters.RaisesExact` | `src/psxcounters.cpp:285-322` | A reset raises an interrupt if and only if the target is reached with mode bit 4, or the count overflows with mode bit 5, and either bit 6 repeats it or none was raised since the mode write. |
| `RootCounters.ResetExact` | `src/psxcounters.cpp:265-326` | What a reset of an overdue counter does: the cycles it takes off, what it waits for next, the mode bits 10, 11 and 12 it sets, and when it reaches its target or overflows. |
| `RootCounters.WcountWaits` | `src/psxcounters.cpp:155-166` | After a count is written the counter waits for its target exactly if the count is below it. |
| `RootCounters.OthersKeepIrqState` | `src/psxcounters.cpp:145-167` | Writing the count or the target, reading the mode and a rebase change nothing that decides about interrupts. |
| `RootCounters.OneShot` | `src/psxcounters.cpp:265-326` | Over every run of resets, with count and target writes, mode reads and rebases between them, a counter not set to repeat raises exactly one interrupt until its mode is written if some reset meets a cause, and else none. |
| `RootCounters.Repeating` | `src/psxcounters.cpp:265-326` | Over every such run, a counter set to repeat raises one interrupt for every reset that meets a cause. |
| `RootCounters.NextStepsIs` | `src/psxcounters.cpp:405-409` | The next call is at vblank or, from vblank on, at the frame's end, the overflowing difference included. |
| `RootCounters.LinesOfASecond` | `src/psxcounters.cpp:53-54` | The lines of a second, 50 frames of 313 or 60 of 263, take a second of cycles, to less than one cycle. |
| `RootCounters.BaseStepOk` | `src/psxcounters.cpp:353-420` | For both regions and both workaround settings, free to change between calls: the next wait and the carry account exactly for the hsyncs stepped, and lateness is carried over whole. |
| `RootCounters.FrameEnds` | `src/psxcounters.cpp:358-403` | A frame ends at its last line, or with the workaround at line 240, where the lines are counted anew; vblank comes at line 240, with its interrupt. |
| `RootCounters.PassKeepsPace` | `src/psxcounters.cpp:328-420` | A pass over all counters moves the base counter's deadline and carry by exactly the hsyncs it steps, whatever it does to the others. |
| `RootCounters.PassRaises` | `src/psxcounters.cpp:328-350` | A pass resets exactly the counters that are overdue, and each raises its interrupt exactly if it meets a cause and may raise one. |
| `RootCounters.NoDrift` | `src/psxcounters.cpp:328-420` | Over every run of passes, anything but the pace free to change between them: 4096 times the true deadline plus the carry equals the line times of all hsyncs stepped, and vblank comes exactly once per frame. |
| `RootCounters.PassCatchesUp` | `src/psxcounters.cpp:328-420` | With the clock still, a pass leaves strictly less to catch up, or finds nothing overdue and changes nothing. |
| `RootCounters.NextDelayExact` | `src/psxcounters.cpp:235-261` | For counters that run, the next call is due at once if and only if a counter is overdue; otherwise exactly when the first counter will be. |
| `RootCounters.ScanExact` | `src/psxcounters.cpp:240-257` | For sound counters the signed 32-bit scan finds exactly the smallest true countdown, 0 if one is overdue. |
| `RootCounters.ScanNegative` | `src/psxcounters.cpp:240-257` | One negative countdown ends the scan with a call at once. |
| `RootCounters.DisabledRestart` | `src/psxcounters.cpp:224-228` | A mode write with the disable bit leaves counter 2 disabled, with nothing elapsed. |
| `RootCounters.DisabledCountdown` | `src/psxcounters.cpp:243-244` | The countdown of a disabled counter reads as negative exactly while more than 2^31 - 1 cycles are left of its almost 2^32, and again once they are over. |
| `RootCounters.DisabledScan` | `src/psxcounters.cpp:240-257` | While a disabled counter 2 has elapsed less than 2^31 - 2^16 cycles, it is not overdue and the scan asks for a call at once. |
| `RootCounters.RebaseKeepsElapsed` | `src/psxcounters.cpp:624-629` | The rebase changes no counter's elapsed or remaining cycles. |
| `RootCounters.NotLostFor` | `src/psxcounters.cpp:235-261` | Counters that are not overdue stay within 32-bit reach for two thousand million cycles. |
| `RootCounters.RestartedRuns` | `src/psxcounters.cpp:435-444` | After a mode write the counter runs from zero with its interrupt re-armed. |
| `RootCounters.RestartedCounts` | `src/psxcounters.cpp:188-231` | From its mode write on a counter counts, by its mode bits, cycles, dots of five cycles, lines or every eighth cycle, and nothing when disabled. |
| `RootCounters.RootCounters.constructor` | `src/psxcounters.cpp:103-110` | The counters before they are initialised: no mode, no target, no carry. |
| `RootCounters.RootCounters.PsxRcntInit` | `src/psxcounters.cpp:498-525` | From any state the counters start running, at zero, in the base counter's pattern; modes, targets and interrupt flags stay as they were. |
| `RootCounters.RootCounters.PsxRcntReset` | `src/psxcounters.cpp:265-326` | The counter becomes the reset one; the interrupt is raised if and only if the target is reached with mode bit 4, or the count overflows with mode bit 5, and bit 6 is set or none was raised since the mode write. |
| `RootCounters.RootCounters.UpdateBase` | `src/psxcounters.cpp:353-420` | The base counter, its hsync bookkeeping, vblanks and frames take exactly one step. |
| `RootCounters.RootCounters.CountLines` | `src/psxcounters.cpp:358-403` | A vblank exactly at line 240, the frame's end at or past its last line. |
| `RootCounters.RootCounters.UpdateAll` | `src/psxcounters.cpp:328-420` | All counters, in whatever state, take exactly one pass. |
| `RootCounters.RootCounters.WriteCount` | `src/psxcounters.cpp:145-167` | The counter becomes the written one, others stay. |
| `RootCounters.RootCounters.WriteMode` | `src/psxcounters.cpp:188-231` | The counter gets the mode and the rate it selects, others stay. |
| `RootCounters.RootCounters.AdjustTimestamps` | `src/psxcounters.cpp:624-629` | Every start time is set back by the same amount. |
| `Scheduler.CountDown` | `src/psxcounters.cpp:240-258` | The loop over counters in any state finds what the 32-bit scan finds, and less than 2^31. |
| `Scheduler.RcntDispatched` | `src/psxcounters.cpp:328-423` | Dispatching the root-counter event catches something up or re-arms it for later, never too late for a counter. |
| `Scheduler.ResetDispatched` | `src/psxevents.cpp:144-168` | Dispatching the rebase event moves no true time and re-arms it. |
| `Scheduler.PerformKeeps` | `src/psxevents.cpp:195-236` | What a handler schedules or cancels keeps the machine sound, adds nothing due and nothing before what was dispatched. |
| `Scheduler.PerformAllKeeps` | `src/psxevents.cpp:195-236` | So does any sequence of such commands. |
| `Scheduler.PerformAllAgenda` | `src/psxevents.cpp:195-236` | After any sequence of such commands exactly those events are planned, at those times, that the commands say, the others as before. |
| `Scheduler.ServedHandled` | `src/psxevents.cpp:258` | The handler of a due front event keeps the machine sound and leaves progress: less to catch up, or as much and fewer due events. |
| `Scheduler.ModeWritten` | `src/psxcounters.cpp:435-444` | A mode write restarts the counter from zero; the machine is then sound, unless counter 2 is disabled, by this write or still. |
| `Scheduler.WrittenSound` | `src/psxcounters.cpp:427-454` | After any write of a counter, with the event re-armed, the machine is sound exactly if counter 2 is not disabled, also when it was before. |
| `Scheduler.CountWritten` | `src/psxcounters.cpp:427-433` | A count written reads back, and the machine is as sound as it was. |
| `Scheduler.TargetWritten` | `src/psxcounters.cpp:446-454` | A target written leaves the count as it reads, and the machine as sound as it was. |
| `Scheduler.RewrittenKeeps` | `src/psxcounters.cpp:427-454` | After the guest writes a counter, the root-counter event is queued no later than the first counter is due. |
| `Scheduler.AdvanceKeeps` | `src/r3000a.cpp:162-169` | Time passing keeps the machine sound if and only if no event and no counter gets 2^31 cycles behind. |
| `Scheduler.SettledAdvances` | `src/r3000a.cpp:168-176` | After a branch test no event and no counter gets 2^31 cycles behind for two thousand million cycles. |
| `Scheduler.LogExtended` | `src/psxevents.cpp:239-273` | Every dispatch comes after all earlier ones, by due time and then by arrival. |
| `Scheduler.TurnSteady` | `src/psxevents.cpp:239-273` | A dispatch keeps the invariant of the loop and makes progress. |
| `Scheduler.TurnAgenda` | `src/psxevents.cpp:239-273` | A dispatch takes the front event off the agenda; the root-counter and rebase events are planned anew, and of any other handler exactly the commands are carried out. |
| `Scheduler.TurnPlanned` | `src/psxevents.cpp:239-273` | Only an event on the agenda is dispatched, and only what its handler schedules comes onto it. |
| `Scheduler.StuckScheduled` | `src/psxcounters.cpp:235-261` | With counter 2 disabled, scheduling the next root-counter call makes it due at once. |
| `Scheduler.StuckTurn` | `src/psxevents.cpp:239-273` | With counter 2 disabled, whatever event is dispatched, the root-counter event is due again. |
| `Scheduler.DisabledCounterHangs` | `src/r3000a.cpp:168-169` | With counter 2 disabled, after any number of dispatches the loop's test still finds an event due. |
| `Scheduler.SpuIntervalIs` | `src/psxevents.cpp:276-287` | A frame of a 50th or 60th of a second holds 2 to the frequency setting sound updates, and none more. |
| `Scheduler.StartsSound` | `src/psxevents.cpp:170-181` | The persistent events and the root-counter event scheduled at time 0 make a sound machine. |
| `Scheduler.RebuiltPersistent` | `src/psxevents.cpp:125-138` | With the persistent events scheduled on a rebuilt queue, every other saved event keeps its due time, and no event else is queued. |
| `Scheduler.FrontTrue` | `src/r3000a.cpp:168-169` | The loop's test is exact about the front event's true due time. |
| `Scheduler.NothingDue` | `src/r3000a.cpp:168-176` | When the front event is not due, no event is and no counter is overdue. |
| `Scheduler.NeverWraps` | `src/psxevents.cpp:140-143` | As long as events are attended to, the cycle counter is set back before it wraps. |
| `Scheduler.IoExact` | `src/psxevents.cpp:140-143` | After a branch test, comparing the cycle counter with `io_cycle_counter` as plain words is exact about the first event's true due time. |
| `Scheduler.DeviceAlive` | `src/psxevents.cpp:195-236` | Whatever guest writes to devices schedule and cancel, the machine stays sound and the front event shown. |
| `Scheduler.StepAlive` | `src/r3000a.cpp:162-176` | Every step, be it a dispatch, the end of a branch test, time passing, or a guest write to a device or a counter, keeps the machine sound and the front event shown. |
| `Scheduler.StepPaced` | `src/psxcounters.cpp:328-420` | Only dispatches of the root-counter event move the base counter's true deadline, and by exactly the hsyncs stepped. |
| `Scheduler.MachineNeverDrifts` | `src/r3000a.cpp:162-176` | Over every run of such steps in any order: the machine stays sound, the base counter's true deadline moves by exactly the hsyncs counted off, and vblank comes once a frame. |
| `Scheduler.StepKeepsPlan` | `src/r3000a.cpp:162-176` | Every step of the machine changes the agenda by what the step is for and nothing else. |
| `Scheduler.CancelledNeverDispatched` | `src/psxevents.cpp:212-273` | Over every run of the machine: an event cancelled by a guest write or by a handler, and not scheduled again, is never the one dispatched. |
| `Scheduler.Machine.PsxRcntSet` | `src/psxcounters.cpp:235-261` | For counters in any state: the root-counter event is scheduled with the delay the scan finds, though its timestamp is overwritten while it may be queued. |
| `Scheduler.Machine.PsxRcntUpdate` | `src/psxcounters.cpp:328-423` | One pass over the counters and the event scheduled for the next. |
| `Scheduler.Machine.PsxEvqueueResetCycleVal` | `src/psxevents.cpp:144-168` | Queue and counters are set back together and the next rebase is scheduled. |
| `Scheduler.Machine.SpuResetUpdateInterval` | `src/psxevents.cpp:276-287` | The sound update is scheduled at the interval of the region and the frequency, or not at all. |
| `Scheduler.Machine.SchedulePersistentEvents` | `src/psxevents.cpp:170-181` | The machine is set back to cycle 0, and the rebase and sound events are scheduled. |
| `Scheduler.Machine.InitFromFreeze` | `src/psxevents.cpp:125-138` | The rebuilt queue is good and shows its front, every saved event but the persistent two has its due time, those two are queued anew, and `io_cycle_counter` is 0. |
| `Scheduler.Machine.Reset` | `src/r3000a.cpp:88-91` | From an empty queue and fresh counters the machine starts sound, with its front event shown and the persistent events queued. |
| `Scheduler.Machine.PsxRcntWcount` | `src/psxcounters.cpp:427-433` | The count reads as written, other counters stay, the root-counter event is re-armed, and the machine is sound, or has still only counter 2 disabled. |
| `Scheduler.Machine.PsxRcntWmode` | `src/psxcounters.cpp:435-444` | The counter restarts from zero in its new mode, other counters stay; the machine is sound, also when the write enables a disabled counter 2, and stuck exactly if counter 2 is then disabled. |
| `Scheduler.Machine.PsxRcntWtarget` | `src/psxcounters.cpp:446-454` | The count reads as before under the new target, other counters stay, the root-counter event is re-armed, and the machine is sound, or has still only counter 2 disabled. |
| `Scheduler.Machine.WriteDevice` | `src/psxevents.cpp:195-236` | What a guest write to a device schedules and cancels between branch tests is done in turn, so that exactly those events are planned, at those times, that the commands say; and the machine can run on. |
| `Scheduler.Machine.RunHandler` | `src/psxevents.cpp:258` | The queue becomes what the handler's schedulings and cancellations make of it, in turn. |
| `Scheduler.Machine.Dispatch` | `src/psxevents.cpp:258` | Queue and counters, in any state, become what the event's handler makes of them. |
| `Scheduler.Machine.DispatchAndRemoveFront` | `src/psxevents.cpp:239-273` | Whatever the counters' state: the event dispatched is the front one, due first and first-queued among ties; it is taken out, handled, and the next front is shown. |
| `Scheduler.Machine.PsxBranchTest` | `src/r3000a.cpp:168-176` | It terminates, has dispatched only due events in order of due time and arrival, never reads an empty queue, and leaves nothing due, no counter overdue and `io_cycle_counter` at the earliest deadline Only events that were planned, or that a handler schedules, are dispatched. |
| `MdecIdct.ButterflyIsFlat` | `src/mdec.cpp:110-160` | The eight-point transform of a line with a first value only is constant. |
| `MdecIdct.CosineSwings` | `src/mdec.cpp:110-160` | The table of cosines the transform is measured by is one: in each row every value is the mean of its neighbours times a constant of the row, evenly or oddly continued beyond the middle, and each row swings faster than the one before. |
| `MdecIdct.ButterflyIsCosine` | `src/mdec.cpp:110-198` | For every line small enough that no product overflows: each of the eight values is that of the inverse cosine transform, to less than two and a 4096th of the first and third entries. |
| `MdecIdct.PlainIsCosines` | `src/mdec.cpp:97-200` | For every block moderate by columns and then by rows: each of the 64 values is that of the two-dimensional inverse cosine transform, to 25 and a 330th of the first and third entries of a column. |
| `MdecIdct.SmallIsCalm` | `src/mdec.cpp:97-200` | A block is so moderate if its first coefficient is at most 2^29 in size and all others together at most 33000, which bounds a column by six times as much. |
| `MdecIdct.OutsideMask` | `src/mdec.cpp:99-106` | A column outside a sound mask has at most its first coefficient. |
| `MdecIdct.ColumnStep` | `src/mdec.cpp:97-161` | Filling or skipping a column outside the mask is one step of the plain column pass. |
| `MdecIdct.RowsAreImpulses` | `src/mdec.cpp:163-168` | If only the first column is touched, every row has at most its first value. |
| `MdecIdct.DcOnlyIsConstant` | `src/mdec.cpp:89-94` | A block with its first coefficient only becomes constant under the plain transform. |
| `MdecIdct.ColumnPass` | `src/mdec.cpp:97-161` | The masked column pass equals the plain one, and its mask is exactly the columns touched. |
| `MdecIdct.RowPass` | `src/mdec.cpp:163-200` | The row pass with its short cut equals the plain one. |
| `MdecIdct.Idct` | `src/mdec.cpp:83-201` | With a sound mask, all 64 values equal the plain pass over eight columns and eight rows. |
| `MdecIdct.ZscanDistinct` | `src/mdec.cpp:234-243` | The zigzag order visits distinct entries. |
| `MdecIdct.ZscanIsZigzag` | `src/mdec.cpp:234-243` | The order begins at the first entry and runs up the rising diagonals and down the falling ones, along the edge where one ends. |
| `MdecIdct.CodeIs` | `src/mdec.cpp:60-61` | A code is a run and a signed value of ten bits. |
| `MdecIdct.ScaledIs` | `src/mdec.cpp:290` | A coefficient is the product of value, table entry and scale, by 4096, rounded to the nearest number, unless a product overflows. |
| `MdecIdct.ScaledDcIs` | `src/mdec.cpp:278` | The first coefficient is the product of value and table entry, by 512, rounded to the nearest number, unless it overflows. |
| `MdecIdct.CoefsAscend` | `src/mdec.cpp:279-293` | The coefficients of a block come at ascending places from 1 to 63. |
| `MdecIdct.ScatterReadsBack` | `src/mdec.cpp:290` | No coefficient overwrites another: each is found at its place, every other entry is as it was. |
| `MdecIdct.CoefficientsAre` | `src/mdec.cpp:272-293` | In every block the first coefficient is that of its first code, each other one is at the zigzag place its codes run to, and all other entries are 0; the first two blocks by the one table, the other four by the other. |
| `MdecIdct.StoreSound` | `src/mdec.cpp:292` | Marking the column of every coefficient below the first row keeps the mask sound. |
| `MdecIdct.ReadStep` | `src/mdec.cpp:279-293` | Each code keeps the mask sound and the block on its way to the one the codes stand for. |
| `MdecIdct.DecodeBlock` | `src/mdec.cpp:276-300` | The block is the one the codes stand for, and the mask is sound, -1 only for a block with its first coefficient only. |
| `MdecIdct.TransformBlock` | `src/mdec.cpp:276-302` | Block `i` is the plain transform of its coefficients; other blocks are untouched. |
| `MdecIdct.NextBlock` | `src/mdec.cpp:276-303` | Block `i` is added to those already laid out, and reading goes on where its codes end. |
| `MdecIdct.Rl2Blk` | `src/mdec.cpp:266-305` | For every code stream that holds six blocks, all six are the plain transforms of their coefficients, each moderate one the two-dimensional inverse cosine transform up to rounding, and reading stops where the codes end. |
| `MdecDma.ImagesPrefix` | `src/mdec.cpp:562-621` | The images of fewer macroblocks are a prefix of those of more. |
| `MdecDma.BlocksForIs` | `src/mdec.cpp:579-591` | A transfer with nothing carried over decodes the fewest blocks that hold its bytes. |
| `MdecDma.CutsAgree` | `src/mdec.cpp:562-621` | Two ways of cutting up the same stream agree on every byte both have handed out. |
| `MdecDma.CopiesFit` | `src/mdec.cpp:569-591` | No copy of a transfer has a negative length, and the last is less than a block, exactly if the transfer is at least as large as the carry. |
| `MdecDma.EmptyBlocksReadable` | `src/mdec.cpp:266-305` | Twelve codes, of which every second ends a block, are a macroblock of empty blocks. |
| `MdecDma.SmallTransfer` | `src/mdec.cpp:569-591` | A decoder is brought to a state with 256 bytes carried over, where a transfer of 32 words would end with a copy of -128 bytes. |
| `MdecDma.Mdec.WholeBlocks` | `src/mdec.cpp:579-584` | Whole blocks go straight to memory while they fit, in order. |
| `MdecDma.Mdec.PartBlock` | `src/mdec.cpp:586-591` | The first bytes of the last block are handed out and exactly the rest is carried. |
| `MdecDma.Mdec.HandOutTail` | `src/mdec.cpp:569-577` | What was carried is handed out first. |
| `MdecDma.Mdec.PsxDma1` | `src/mdec.cpp:543-625` | All bytes handed out so far plus the carry are exactly the images decoded so far, over all decode commands; the transfer stores the next bytes and nothing else, or waits while there is no work. |
| `MdecDma.Mdec.PsxDma0` | `src/mdec.cpp:483-501` | A new decode command keeps the carry: its images follow those of the commands before, and a waiting transfer is carried out. |
| `MdecDma.Mdec.Mdec1Interrupt` | `src/mdec.cpp:654-661` | The decoder has no more work exactly if the codes are used up or an end-of-data code comes next. |
| `ImaAdpcm.EncodingFollows` | `src/cdriso.cpp:153-192` | A sample within two steps is met to an eighth of a step and two; a farther one is approached by at least a step and not passed; also when the predictor saturates. |
| `ImaAdpcm.NearestFollows` | `src/cdriso.cpp:153-192` | For every step size from four up, the nearest nibble follows the sample as above, saturation included. |
| `ImaAdpcm.DecodedAdapts` | `src/cdriso.cpp:123-145` | The rule by which the step index adapts, without the table. |
| `ImaAdpcm.ChangeIs` | `src/cdriso.cpp:131-136` | A nibble moves the predictor by m and a half quarters of the step, m its lower three bits, to less than three, in the direction of its fourth bit. |
| `ImaAdpcm.StepTable` | `src/cdriso.cpp:111-121` | The steps grow from 7 to 32767, each by about a tenth, and more than double every eight. |
| `ImaAdpcm.OutOfReach` | `src/cdriso.cpp:153-192` | For a sample two steps or more away the largest nibble is chosen, and the step more than doubles or becomes the largest. |
| `ImaAdpcm.HeldIsMet` | `src/cdriso.cpp:153-192` | From every state, every sample that is held is within two steps after at most eleven samples, and met to an eighth of a step and two by the next. |
| `ImaAdpcm.ImaDecodeSample` | `src/cdriso.cpp:129-147` | The decoder's step is the state change the encoder assumes; a nibble whose lower three bits m are below 4 takes the step index down by one, else up by 2 (m - 3), within 0 and 88. |
| `ImaAdpcm.ImaEncodeSample` | `src/cdriso.cpp:153-192` | The state left is the one the decoder reaches by the nibble returned, its step index adapted by the same rule, and its predictor follows the sample. |
| `ImaAdpcm.DecodedFollows` | `src/cdriso.cpp:153-192` | Over every sample sequence, each decoded sample follows the encoded one from the predictor before it. |
| `ImaAdpcm.SectorReadsBack` | `src/cdriso.cpp:2817-2831` | Header and nibbles read back as they were packed. |
| `ImaAdpcm.MonoBetween` | `src/cdriso.cpp:2805-2811` | A mono sample lies among the four it stands for, so the clamps never fire. |
| `ImaAdpcm.MonoAverage` | `src/cdriso.cpp:2805-2811` | A mono sample is the average of the four it stands for, rounded towards zero. |
| `ImaAdpcm.SectorDecodesAlone` | `src/cdriso.cpp:2265-2289` | Every sector of every track decodes from its own header alone to exactly the encoder's predictors and ends in the next sector's header. |
| `ImaAdpcm.Downsample` | `src/cdriso.cpp:2802-2815` | The samples are the averages of two stereo pairs each. |
| `ImaAdpcm.EncodePair` | `src/cdriso.cpp:2823-2829` | Two samples become one byte, low nibble first, and the encoding of the rest goes on from the state left. |
| `ImaAdpcm.EncodeSector` | `src/cdriso.cpp:2817-2831` | The buffer is the sector of the state before and of the chosen nibbles, and the state after is carried on. |
| `ImaAdpcm.ConvertToBinadpcm` | `src/cdriso.cpp:2789-2848` | The file is the encoded track, sector by sector. |
| `ImaAdpcm.DecodePair` | `src/cdriso.cpp:2271-2279` | A byte's two nibbles are decoded in order. |
| `ImaAdpcm.ReadSector` | `src/cdriso.cpp:2265-2289` | The buffer holds each decoded sample as two stereo pairs, in order. |
| `ImaAdpcm.PlayBack` | `src/cdriso.cpp:2265-2289` | The decoder run on any sector of a track converted by the encoder yields the encoder's own predictors, two stereo pairs each. |
| `ImaAdpcm.PlayBackFollows` | `src/cdriso.cpp:2265-2289` | Every stereo value played back follows the mono sample encoded, from the predictor before it. |
| `DmaChain.UsedIs` | `src/psxdma.cpp:100-110` | The three words remembered are the last address and the last ones reached by a step down and by a step not down. |
| `DmaChain.ReportsVisited` | `src/psxdma.cpp:100-110` | A report is never false: the address was visited before. |
| `DmaChain.CountRound` | `src/psxdma.cpp:100-110` | Once round a cycle there are as many steps of a kind from wherever one starts. |
| `DmaChain.VisitsApart` | `src/psxdma.cpp:112-137` | Between two visits of an address lies a whole round. |
| `DmaChain.LoneStepReported` | `src/psxdma.cpp:100-110` | A cycle with exactly one step of some kind is reported by the end of the second round. |
| `DmaChain.MixedStepsUnreported` | `src/psxdma.cpp:100-110` | A cycle with at least two steps of each kind is never reported. |
| `DmaChain.BothKinds` | `src/psxdma.cpp:100-110` | Only a cycle of one address lacks a kind of step. |
| `DmaChain.DetectorExact` | `src/psxdma.cpp:100-110` | A cycle is reported if and only if it has exactly one step down or exactly one step not down. |
| `DmaChain.EndingUnreported` | `src/psxdma.cpp:112-137` | A list that ends visits no address twice, so it is never reported. |
| `DmaChain.MeasuredOnce` | `src/psxdma.cpp:112-137` | The walk found and its size are determined by memory and start address. |
| `DmaChain.EndingMeasured` | `src/psxdma.cpp:112-137` | A list that ends is measured whole. |
| `DmaChain.LoneLoopLeft` | `src/psxdma.cpp:112-137` | A loop the detector sees is left by the end of the second round. |
| `DmaChain.MixedLoopRunsOut` | `src/psxdma.cpp:112-137` | Any other loop is left only when the command limit is exceeded. |
| `DmaChain.LoopWalks` | `src/psxdma.cpp:112-137` | The list of a concrete memory loops over the words at 0, 8, 4 and 12. |
| `DmaChain.UnreportedLoop` | `src/psxdma.cpp:100-137` | The walk over that memory is never reported: it runs into the command limit. |
| `DmaChain.Masked` | `src/psxdma.cpp:123` | An address is cut to the word it lies in, within two megabytes. |
| `DmaChain.Carries` | `src/psxdma.cpp:127-130` | A node is its upper byte, the words it carries, and a pointer of 24 bits. |
| `DmaChain.CheckForEndlessLoop` | `src/psxdma.cpp:100-110` | It reports exactly the addresses remembered and keeps the memory of the walk. |
| `DmaChain.GpuDmaChainSize` | `src/psxdma.cpp:112-137` | The size is that of the walk to the list's end, to the first report, or to the command limit. |
| `DmaChain.PsxDma6` | `src/psxdma.cpp:252-259` | Exactly the table's words are written, each leading one word down and the last ending the list; with a count of 0 the word above the head. |
| `DmaChain.TablePointer` | `src/psxdma.cpp:256` | A table word, cut to 24 bits, is no end mark and leads to the word below. |
| `DmaChain.TableEnds` | `src/psxdma.cpp:252-259` | A table of `bcr` words is a list that ends after `bcr` empty nodes. |
| `DmaChain.TableMeasured` | `src/psxdma.cpp:112-137` | On such a table the detector never fires and the size is `bcr` + 1. |
| `PpfCache.InsertedSorted` | `src/ppf.cpp:143-177` | Insertion keeps the list sorted by sector and position. |
| `PpfCache.InsertedAdds` | `src/ppf.cpp:143-177` | It adds exactly the record, in front of every record that is not below it. |
| `PpfCache.AllInsertedSorted` | `src/ppf.cpp:133-178` | In whatever order records come, the list holds exactly them, sorted. |
| `PpfCache.StartsAbove` | `src/ppf.cpp:62-74` | The entries made after a record are exactly those of the higher sectors, each at its first record. |
| `PpfCache.IndexExact` | `src/ppf.cpp:43-75` | The index ascends, enters each sector at its first record, and finds every sector of the list but -1 when the list begins with it. |
| `PpfCache.FirstOfSector` | `src/ppf.cpp:120-122` | From the entry found on lie exactly the sector's records. |
| `PpfCache.NotIndexed` | `src/ppf.cpp:97-118` | A sector without entry has no records, unless the sentinel hides it. |
| `PpfCache.LastDecides` | `src/ppf.cpp:120-130` | A byte no record covers stays; otherwise the last covering record decides. |
| `PpfCache.CutKeepsBytes` | `src/ppf.cpp:330-339` | Cutting a patch at a sector edge loses, moves and adds no byte. |
| `PpfCache.CutApplicable` | `src/ppf.cpp:123-127` | The pieces of a patch can be applied if and only if it reaches past the header of its last sector. |
| `PpfCache.NegativeCopy` | `src/ppf.cpp:123-127` | Four bytes at byte 3 of a sector: -5 bytes would be copied. |
| `PpfCache.SentinelHides` | `src/ppf.cpp:43-75` | A patch at offset -2352 lies in sector -1: it is in the list, and not in the index. |
| `PpfCache.AdvanceShort` | `src/ppf.cpp:333-347` | The loop goes on by what the patch takes in the file exactly if it crosses no sector edge, and else by less. |
| `PpfCache.LoadedCount` | `src/ppf.cpp:313-348` | A file read without an error was counted off exactly by its patches' advances. |
| `PpfCache.PositionReadsBack` | `src/ppf.cpp:314-319` | Every signed 32-bit position is read from its four bytes, lowest first. |
| `PpfCache.PatchReadsBack` | `src/ppf.cpp:314-328` | A patch encoded in a file, with or without the four bytes of PPF3 and the undo data, is read as it was. |
| `PpfCache.FileReadsBack` | `src/ppf.cpp:313-348` | For every file, with or without undo data: it is read back as the patches it holds if and only if none of them crosses a sector edge. |
| `PpfCache.PlacesExact` | `src/ppf.cpp:333-347` | Every patch is read from its own place in the file if and only if no patch but the last crosses a sector edge. |
| `PpfCache.AllReadFirst` | `src/ppf.cpp:313-348` | If none but the last crosses an edge, all patches are read before anything else is, error or not. |
| `PpfCache.CutFileFails` | `src/ppf.cpp:313-348` | A file of one patch across a sector edge ends in an error after that patch. |
| `PpfCache.Ppf.FindPlace` | `src/ppf.cpp:148-164` | The walk finds the neighbours between which the record belongs. |
| `PpfCache.Ppf.LinkIn` | `src/ppf.cpp:174-177` | The chain of nodes gets exactly the new one, head and last pointer right. |
| `PpfCache.Ppf.AddToPPF` | `src/ppf.cpp:133-178` | The linked list becomes the list with the record inserted. |
| `PpfCache.Ppf.AddPatch` | `src/ppf.cpp:330-339` | One or two records are added, as the patch is cut; the length left is that of the part in the first sector. |
| `PpfCache.Ppf.FreePPFCache` | `src/ppf.cpp:77-91` | List and index are empty. |
| `PpfCache.Ppf.ReadOne` | `src/ppf.cpp:314-347` | A turn of the loop adds the next patch of what is to be read, and goes on as the specification does, or ends in its error. |
| `PpfCache.Ppf.ReadPatches` | `src/ppf.cpp:313-348` | For every file: the list holds the pieces of exactly the patches that are read, and it reports whether reading failed. |
| `PpfCache.Ppf.BuildPPFCache` | `src/ppf.cpp:313-361` | The list holds the pieces of exactly the patches read from the file's bytes, sorted; unless reading failed, the index is that of the list, else there is none. |
| `PpfCache.Ppf.CountSectors` | `src/ppf.cpp:48-56` | The count is the number of index entries. |
| `PpfCache.Ppf.FillEntries` | `src/ppf.cpp:62-74` | The entries are those of the sectors' first nodes. |
| `PpfCache.Ppf.FillPPFCache` | `src/ppf.cpp:43-75` | The index is that of the list, with the bound the search uses. |
| `PpfCache.Ppf.Search` | `src/ppf.cpp:97-118` | The binary search finds an entry for the sector if and only if there is one. |
| `PpfCache.Ppf.ApplyFrom` | `src/ppf.cpp:120-130` | The sector's records from a node on are applied in list order. |
| `PpfCache.Ppf.CheckPPFCache` | `src/ppf.cpp:93-131` | Exactly the list's records for the sector are applied, in list order, but for sector -1 when the list begins with it. |
| `PpfCache.Apply` | `src/ppf.cpp:123-127` | Exactly the bytes the record covers in the patched part of the sector change. |
| `Gte.CueBitsAre` | `src/gte.cpp:427-429` | Depth cueing reports clamping to 0 to 0x1000 by bit 12 and overflow by bits 16, 15 and 31, each exactly when it happens, and nothing else. |
| `Gte.VertexBitsAre` | `src/gte.cpp:407-421` | The projection of a vertex never sets bit 12, and bits 16 and 15 exactly for screen coordinates that overflow, with bit 31. |
| `Gte.RtptFlagExact` | `src/gte.cpp:432-463` | The triple operation's error register is contained in the union of the single ones, and equals it exactly if each depth cue of the first two vertices that is clamped, or leaves 32 bits on a side, finds its like in the last vertex's cue or, for 32 bits, in a screen coordinate of any vertex. |
| `Gte.RtptLosesCue` | `src/gte.cpp:459-462` | A triangle whose first vertex saturates the depth cue, which only the single operation reports. |
| `Gte.ColourBitsAre` | `src/gte.cpp:613-643` | On the way to a normal's colour, bits 24, 23 and 22 are set exactly for the components that leave their limits, with bit 31 for the first two. |
| `Gte.NctFlagExact` | `src/gte.cpp:646-685` | The error register of a triple colour operation is contained in the union of the single ones: equal for the tinted form always, for the others exactly if every component that leaves 0 to 0x7fff in the first two colours leaves its limits in the last colour or on the way to one of the three. |
| `Gte.NctLosesLimit` | `src/gte.cpp:858-890` | Three normals of which the first alone is lit beyond the limit over the background: only the single operation reports it. |
| `Gte.NcdtLosesLimit` | `src/gte.cpp:646-685` | The same for fading away from a black far colour. |
| `Gte.LimitedIsNearest` | `src/gte.cpp:199-209` | A limited value lies between the limits, and no value between them is nearer. |
| `Gte.ToS32Is` | `src/gte.cpp:407-409` | A register holds the one 32-bit value that differs by a multiple of 2^32. |
| `Gte.MovedIs` | `src/gte.cpp:407-409` | A moved vector is, to the 4096th rounded down, the translation and each matrix row times the vector. |
| `Gte.ProjectIsPerspective` | `src/gte.cpp:407-421` | For every vertex farther than half the screen's distance: unless a limit of the screen is reached, its point lies within two of the screen's offset and its place times screen distance over depth. |
| `Gte.ThreeProjected` | `src/gte.cpp:414-421` | Three vertices fill the screen queue in their order, and the depth queue after the newest depth before. |
| `Gte.CueIs` | `src/gte.cpp:427-429` | The depth cue is the quotient's times the slope plus the offset, a 4096th rounded down within 0 and 0x1000, and a 32-bit register. |
| `Gte.RtpsFlagIs` | `src/gte.cpp:399-430` | Every bit of a single projection's error register, by exactly what it reports; bit 31 sums up all but upward overflows, the third component's and the depth cue's limits. |
| `Gte.ShadeIs` | `src/gte.cpp:619-627` | The light on a normal, and its colour over the background, in all nine entries of both matrices. |
| `Gte.TintIs` | `src/gte.cpp:557-559` | A tinted component is the vertex colour's times the light's, in 1/256, rounded down. |
| `Gte.FadeIsBetween` | `src/gte.cpp:631-633` | A faded component is less than one off the point on the way from the tinted one to the far colour, unless these are more than 16 bits apart. |
| `Gte.LimCIs` | `src/gte.cpp:641-643` | A colour byte is a sixteenth of the component, rounded down, within 0 and 255. |
| `Gte.NcIs` | `src/gte.cpp:539-570` | A single colour operation leaves the colour in the registers, only the tinted one beyond its limits, and its bytes as the newest of the colour queue. |
| `Gte.NcFlagIs` | `src/gte.cpp:613-643` | Every bit of a single colour operation's error register, by exactly what it reports, for each kind and with far-colour overflows checked or not. |
| `Gte.Engine.Vertex` | `src/gte.cpp:407-421` | Rotation, depth, quotient and screen coordinates of a vertex, with the error bits they add. |
| `Gte.Engine.GteRtps` | `src/gte.cpp:399-430` | The data registers and the error register of a single projection. |
| `Gte.Engine.RtptLoop` | `src/gte.cpp:432-463` | The in-place loop over the depth and screen queues equals three pushes. |
| `Gte.Engine.GteRtpt` | `src/gte.cpp:432-463` | For every control and data register: the data registers, queues included, are left as by three single projections. |
| `Gte.Engine.Colour` | `src/gte.cpp:619-643` | A normal's colour pushed into the colour queue, with the error bits on the way. |
| `Gte.Engine.GteNcs` | `src/gte.cpp:539-570` | The single colour operations, light alone, tinted or faded. |
| `Gte.Engine.NctLoop` | `src/gte.cpp:572-611` | The loop that limits the intermediate registers only at the end equals three pushes. |
| `Gte.Engine.GteNct` | `src/gte.cpp:646-685` | For every kind, control and data register: the data registers, colour queue included, are left as by three single operations. |
| `CrcRegister.StepLinear` | `src/cdrom.cpp:192-222` | Shifting the register is linear over exclusive or. |
| `CrcRegister.Step8Linear` | `src/cdrom.cpp:192-222` | Shifting the register by a whole byte is linear over exclusive or. |
| `CrcRegister.BitLaidOver` | `src/cdrom.cpp:229` | A data bit entering is the bit laid over the top and shifted through. |
| `CrcRegister.SerialIsStep8` | `src/cdrom.cpp:229` | A byte entering bit by bit is the byte laid over the upper half and shifted through. |
| `SubqCrc.TableIsSerial` | `src/cdrom.cpp:192-222` | Every one of the 256 table entries is its index shifted through the register. |
| `SubqCrc.TableStep` | `src/cdrom.cpp:229` | One step of the table-driven loop takes in one byte bit-serially. |
| `SubqCrc.CalcCrc` | `src/cdrom.cpp:224-233` | For byte strings of every length the result is the inverted bit-serial CRC with polynomial 0x1021 and initial value 0. |

## Left out

- BiosQsort.PsxBiosQsort: comparison routines that are no total preorder or change memory; the emulated code behind
  `qscmp` is not part of this model.
- BiosHeap.Heap.InitHeap: heap addresses that are not word-aligned.
- BiosHeap.Heap.Malloc: a heap pointer never set, unaligned heap addresses, and a heap of no words, which the code reads
  all the same.
- BiosHeap.Heap.Free: addresses that are no live block; the code changes whatever word lies before them.
- `calloc`, which clears the block that `malloc` hands out, and `realloc`, which frees and then allocates without
  copying.
- EventQueue.Queue.Add: delays of 2^31 and more, for which the signed comparison has no true time to agree with.
- EventQueue.Queue.Remove: removing the last queued event, after which the code reads the front of an empty queue; the
  persistent events rule it out.
- EventQueue.Queue.InitFromFreeze: only the rebuilding; the rest of it is in `Scheduler.Machine.InitFromFreeze`.
- Scheduler.Machine.InitFromFreeze: a saved mask with no event in it, for which the code reads an empty queue.
- Scheduler.Machine.PsxBranchTest: the interrupt exception after the loop, handlers that re-arm at once, and a disabled
  counter 2, with which the loop never ends; `setIrq` also clears `io_cycle_counter`, which the scheduling that follows
  overwrites, so only its effect on the interrupt register is kept.
- Scheduler.Machine.PsxRcntWcount, Scheduler.Machine.PsxRcntWtarget: writes of the count and target of counter 2 while
  it is disabled.
- Scheduler.MachineNeverDrifts: runs in which counter 2 is disabled, and a saved state loaded.
- RootCounters.NoDrift: a saved state loaded, and an initialisation, which begins a new frame.
- Counter reads by register number, the read that halves counter 2, `psxRcntInitFromFreeze`, and savestate input and
  output.
- MdecIdct.Rl2Blk: quantization tables are parameters, and the codes of six blocks end before the stream does. A block
  whose products leave 32 bits is transformed as the plain passes do, and nothing is said of its cosines.
- MdecDma.Mdec.PsxDma1: transfers smaller than the carry, see `MdecDma.CopiesFit`; a change of colour depth with a carry
  pending; output that overwrites codes still to be read; the interrupt it schedules. The two colour depths, written out
  twice in the code, are one method here.
- MdecDma.Mdec.PsxDma0: commands other than decoding, and the quantization tables they load.
- The colour conversion of MDEC itself.
- ImaAdpcm.ConvertToBinadpcm: opening, reading and writing files, short reads, and the WAV form of compressed tracks.
- DmaChain.PsxDma6: unaligned addresses, tables that leave RAM, other control words, the interrupt.
- DmaChain.GpuDmaChainSize: the transfer of the list to the GPU.
- PpfCache.Ppf.BuildPPFCache: the header of the file, from which the format, the first byte and the count come; a patch
  that ends before a sector at a negative offset begins, for which the code copies a negative length.
- PpfCache.Ppf.CheckPPFCache, PpfCache.Apply: records that cannot be applied, see `PpfCache.CutApplicable`; and the
  conversion of minutes, seconds and frames to a sector number.
- Gte.Engine.GteRtpt: registers are unbounded integers and hold any value; the quotient is that of the native division,
  not of the division table.
- Gte.Engine.GteNct: the three triple colour operations, written out separately in the code, are one method with a kind.
- Single instructions of the interpreter, hardware register routing, disc image parsing, the CD command switch, the
  other BIOS calls, and the GPU and SPU plugins: broad, with shallow claims per case.
