# Simple OS simulator: verified model

A Dafny model of the memory manager, the MLQ scheduler, the time-slot barrier and the main loops of
the simulator, with proofs of what they keep over whole runs. `dafny verify dfyconfig.toml` checks
everything.

## What is modelled

**Words and entries** (`Words.dfy`, `Pte.dfy`). C words are natural numbers with digit-by-digit
`And`, `Or` and shifts; the macros of `include/bitops.h` and `include/mm.h` are written with them as
in the source, and lemmas give the arithmetic they amount to. `Common.dfy` holds shared vocabulary.

**Page tables** (`PageTable.dfy`). `class PageTable` is the lazily allocated five-level tree: cells
of the upper tables hold addresses of tables handed out by calloc. It is proved to stand for a flat
map from page numbers to entries.

**Paged memory** (`Memphy.dfy`, `Space.dfy`, `Paging.dfy`, `MmStruct.dfy`). `class Memphy` is a
physical device, `class MmStruct` a process's memory map with its in-place operations; each method
is tied to a function on values. `PagingSystem.dfy` and `PagingSteps.dfy` prove what one instruction
of any process keeps and exactly when it does not, `PagingRuns.dfy`, `PagingEager.dfy`,
`PagingFull.dfy` and `PagingAddresses.dfy` what holds over whole runs, and `PagingPrograms.dfy`, with
the calculus of `PagingWitness.dfy`, shows programs from boot on which the rest fails.

**Scheduler** (`Mlq.dfy`, `Scheduler.dfy`). `class Queue` is the bounded array queue and
`class Scheduler` the critical sections of `src/sched.c`, tied to functions whose service and
waiting properties are proved for every interleaving.

**Barrier and main loops** (`Barrier.dfy`, `Os.dfy`, `OsPlaces.dfy`, `OsStop.dfy`, `OsExec.dfy`,
`OsLoss.dfy`, `OsPids.dfy`, `OsTime.dfy`, `OsRuns.dfy`, `OsLoad.dfy`, `OsFair.dfy`, `OsEnds.dfy`, and
with `OsPaths.dfy` the runs of `OsPidWitness.dfy` and `OsLossWitness.dfy`). The timer protocol is a
step system at lock granularity with explicit sleeping threads, signals and spurious wakeups. The
machine composes it with the CPU loop, the load loop and the scheduler; every interleaving of their
critical sections is a run.

## How the model reads the source

- **Residency test.** The contract of `pg_getpage` says a page is in RAM when it is present and not
  swapped (src/libmem.c:240); the code tests PRESENT only (src/libmem.c:257), and `pte_set_swap`
  sets PRESENT (src/mm64.c:116). Both are modelled, as the `Test` values `Documented` and
  `AsWritten`. As written, a swapped page is taken for a resident one, its swap-in branch is never
  entered, and the frame number is read out of the swap offset; `Paging.AsWrittenResident` gives the
  exact condition, `PagingPrograms.AsWrittenReadsStale` and `PagingPrograms.AsWrittenClobbers` programs
  that show it. The intended reading is the documented one, and swapping is transparent for it in
  every run whose accesses stay inside their regions (`PagingRuns.RegionTransparency`), and in every
  run whose growths are harmless (`PagingRuns.SwapTransparency`).
- **Growth over mapped pages.** Nothing bounds an access by its region, so a page past the break may
  be mapped by a stray access and mapped again by a later growth. Each theorem asks of the growths of
  a run what it needs and no more, as conditions on the state before the call: that no page in the
  victim queue is mapped (`Unqueued`, for exclusivity: `PagingSteps.InvIffUnqueued`), that besides no
  byte is replaced (`Harmless`, for transparency: `PagingSteps.KeepsIffHarmless`), or that all pages
  are unmapped (`Clean`, for conservation: `PagingSteps.ConservedIffClean`). Programs that stay inside
  their regions meet all three. `PagingPrograms.UncleanReadsStale` and `PagingPrograms.QueuedBreaks`
  are runs that do not, and fail.
- **Sizes.** A frame number has 13 bits in an entry and a swap offset 21. Runs start on devices of at
  most 8192 and 2^21 frames (`Configured`); with more, two frame numbers read as one
  (`Pte.SetFpnReads`). The default RAM of 16 MB (src/os.c:221) has 65536 frames.
- **Undefined copies.** Outside those conditions a swap cycle may name a frame that RAM does not have;
  an instruction is `Ready` when it copies existing frames only, which the invariant guarantees.
- **RAM exhaustion.** `vm_map_ram` reports failure as an unsigned value, so src/mm-vm.c:143 never
  fires: the break still moves, by the unrounded size, nothing is mapped and the frames taken so far
  are lost. The model does the same; properties that need the frames say so (`WithFrames`).
- **Full swap.** `find_victim_page` unlinks its victim before `MEMPHY_get_freefp` is asked for a frame
  (src/libmem.c:265-270), so an access that fails for a full device drops a page from the queue for
  good; `PagingFull.FullSwapRun` follows this over runs.
- **First contents.** A page mapped by a fault or a growth starts with whatever its frame holds; the
  comment at src/libmem.c:295-298 says zeroed. Reads are related to writes of the same run only.
- **Read result.** `pg_getval` leaves the byte in `regs.a3`; that is the value modelled. `__read`
  finds the region through `krnl->mm` (src/libmem.c:401); the model uses the process's own map.
- **Rounding tail.** `regs.a3 == size` when src/libmem.c:129 is reached, so the tail of a growth is
  never put on the free list; the ledger counts it as abandoned.
- **Page size.** 256 bytes (include/mm.h:8), although `README.md` of the simulator and
  include/mm64.h:8 say 4096; the index masks act on the page number itself.
- **Address wrap.** `PAGING_PGN` reads 22 address bits (include/mm.h:60), so virtual addresses 2^22 apart
  share a page. Events carry page and offset; `PagingAddresses` restates transparency by virtual
  address for breaks up to 2^22, above which disjoint regions may alias.
- **Queue capacity.** `enqueue` drops a process silently when its queue holds 50 (src/queue.c:14-15).
  Workloads of any size are modelled; the place of a dropped process is `Lost`. With at most 50
  processes of each priority (`FitsQueues`) none is.
- **Undefined accesses.** A physical address outside RAM is `OutOfBus`.
- Region ids are below 30, sizes below 2^31. System calls of a running process reach its own PCB,
  which `OsRuns.PidLookup` derives from a bound on the workload.

## Model

| member | source | states |
|---|---|---|
| Words.GenMaskValue | include/bitops.h:27-28 | GENMASK(h, l) is the word with ones exactly at positions l..h, for every width |
| Words.NBitsIsLog2 | include/bitops.h:30-35 | NBITS(n) is floor(log2 n) for every non-zero 32-bit n |
| Words.GetValIsField | include/mm.h:76 | GETVAL reads bits l..h as a number |
| Words.SetValReplacesField | include/mm.h:75 | SETVAL replaces one field by the value cut to its width and changes no other bit |
| Pte.SetFpnDecodes | src/mm64.c:130-141 | pte_set_fpn turns any stale 32-bit entry into the entry of a page resident in that frame, its number cut to 13 bits |
| Pte.SetFpnReads | include/mm.h:17-69 | PRESENT is set, SWAPPED clear, and PAGING_FPN gives the number back if and only if it is below 2^13 |
| Pte.SetSwapDecodes | src/mm64.c:111-123 | pte_set_swap turns any stale 32-bit entry into the entry of a page at that offset (below 2^21) of that device type (below 32) |
| Pte.SetSwapReads | include/mm.h:17-69 | both flags, type and offset read back; PAGING_FPN shows the low offset bits and the type |
| Pte.EncodedReads | include/mm.h:26-69 | PRESENT, SWAPPED, PAGING_FPN and PAGING_SWP of an entry, in terms of what was stored |
| Pte.LastUpdateWins | src/mm64.c:111-141 | after any history of pte_set_fpn and pte_set_swap, with any swap types, the readers see what the last call asked for |
| Pte.AddressSplit | include/mm.h:79-92 | PAGING_PGN and PAGING_OFFST split an address; page * 256 + offset rebuilds it on the 22-bit bus |
| PageIndex.IndicesAreDigits | src/mm64.c:71-99 | the five indices of a page number are its nine-bit digits |
| PageIndex.IndicesInjective | src/mm64.c:71-99 | two page numbers share all indices if and only if they agree on 45 bits |
| PageIndex.IndicesRecompose | src/mm64.c:71-99 | below 2^45 the indices recompose to the page number |
| PageTable.CellsDistinct | src/mm64.c:347-383 | distinct page numbers have distinct cells |
| PageTable.EntriesAfterCalloc | src/mm64.c:358-378 | allocating a table on a walk changes no entry of any page |
| PageTable.EntriesAfterStore | src/mm64.c:159-163 | storing one entry changes no other entry |
| PageTable.PageTable.constructor | src/mm64.c:324-328 | a new tree stands for the flat table in which every entry reads 0 |
| PageTable.PageTable.GetPte | src/mm64.c:347-383 | the walk finds the cell of the page, allocating on the way, and leaves the flat table as it was |
| PageTable.PageTable.Read | src/mm64.c:149-152 | reading yields the flat table's entry |
| PageTable.PageTable.Store | src/mm64.c:159-163 | the tree then stands for the flat table with that one entry changed |
| Memphy.PagesAfterCopy | src/mm64.c:296-312 | a page copy makes the target frame equal to the source frame and changes no other frame |
| Memphy.PagesAfterPut | src/mm-memphy.c:108-119 | a byte write changes one byte of one frame |
| Memphy.Memphy.Format | src/mm-memphy.c:125-151 | the free list becomes every frame in order; fails on a device under one page |
| Memphy.Memphy.GetFreefp | src/mm-memphy.c:153-166 | pops the head of the free list onto the used list, or fails on an empty list |
| Memphy.Memphy.PutFreefp | src/mm-memphy.c:200-211 | pushes the frame on the free list, whose order is kept |
| Memphy.SwapCpPage | src/mm64.c:296-312 | the byte loop performs the page copy of PagesAfterCopy |
| Space.FirstFitCarves | src/libmem.c:754-809 | takes exactly size bytes off the first node that fits; the other nodes keep their order |
| Space.AllocReuses | src/libmem.c:85-95 | an allocation for which a free node has at least size bytes takes the first bytes of the first such node, which keeps the rest in its place; the break and the other ids stay |
| Space.AllocGrows | src/libmem.c:107-126 | an allocation no node has room for is [old break, old break + size); the break moves past it, by a whole number of pages if RAM has the frames and by the bare size if not; the list and the other ids stay |
| Space.FreeReturns | src/libmem.c:169-181 | the id is cleared, a region with bytes becomes the first free node before the unchanged others, the free total rises by its bytes, the break stays |
| Space.FreeThenAlloc | src/libmem.c:71-185 | a freed region is the next to be used: a request of at most its bytes gets its start, the rest stays free and the heap does not grow |
| Space.AllocThenFree | src/libmem.c:71-185 | freeing undoes an allocation for an unused id: the table is back as it was and the bytes are at the head of the list |
| Space.HeapDisjointness | src/libmem.c:71-185 | after every sequence of __alloc and __free, with or without frames for growth, live and free regions are pairwise disjoint in [0, sbrk) |
| Space.HeapLedger | src/libmem.c:71-185 | over whole runs live + free + abandoned bytes equal sbrk |
| Paging.TestsAgree | src/libmem.c:253-320 | the PRESENT test and the present-and-not-swapped test differ on swapped pages only |
| Paging.AccessOutcomes | src/libmem.c:257-313 | a page that the test finds costs nothing; otherwise the access fails if and only if the queue is empty or swap is full, and then unlinks exactly the oldest queued page and changes nothing else; otherwise the oldest page leaves the queue and the target joins it as the newest |
| Paging.DocumentedResident | src/libmem.c:237-320 | under the documented test a successful access leaves the page resident at the frame returned |
| Paging.AsWrittenResident | src/libmem.c:253-320 | under the test as written this holds if and only if the page was not swapped out before the call |
| Paging.AsWrittenSwapped | src/libmem.c:257-317 | an access as written to a page swapped out at offset k changes nothing and reports frame (k mod 256) * 32 |
| Paging.ExchangeSlots | src/libmem.c:265-313 | the exchange changes the entries of victim and target and no other |
| Paging.ExchangePages | src/libmem.c:265-313 | the exchange moves the victim's bytes to the swap frame and the target's into RAM, and no other frame changes |
| PagingSystem.AccessKeeps | src/libmem.c:253-320 | one page access by either test, successful or not: frames stay exclusive, every mapped page of every process keeps its bytes, no frame is lost |
| PagingSystem.ExchangeConserves | src/libmem.c:265-313 | the exchange loses no RAM frame and no swap frame |
| PagingSteps.StepInv | src/libmem.c:71-463 | every instruction, by either test, keeps frames exclusive, off the free lists, in range and within the entry fields, unless it is a growth that maps a page in the victim queue |
| PagingSteps.InvIffUnqueued | src/mm64.c:196-207 | a growth that finds its frames keeps that invariant if and only if it maps no page in the victim queue |
| PagingSteps.KeepsIffHarmless | src/mm64.c:183-210 | such a growth keeps the bytes of every mapped page if and only if each page it maps anew already holds the bytes of the frame it is given |
| PagingSteps.ConservedIffClean | src/mm64.c:183-248 | a growth that finds its frames loses no frame if and only if it maps only unmapped pages (CleanGrowth) |
| PagingSteps.IsolationIff | src/libmem.c:71-463 | an instruction of one process never changes an entry of another, and changes a byte of its page if and only if it is a write as written to a swapped-out page whose offset names that page's frame |
| PagingSteps.Isolation | src/libmem.c:253-463 | so under the documented test, or on a page that is not swapped out, nothing of another process changes |
| PagingRuns.RunExclusive | src/mm-memphy.c:125-211 | in every run whose growths map no queued page: no frame backs two pages, none that backs a page is free, free lists have no duplicates and stay in range, queued pages are resident and queued once |
| PagingRuns.RunConserves | src/libmem.c:265-313 | in every run whose growths find frames and map only unmapped pages (CleanGrowth) every frame is free or backs a page |
| PagingEager.FrameCounts | src/libmem.c:265-313 | the same in numbers: resident pages + free RAM frames, and swapped pages + free swap frames, are the frame counts |
| PagingRuns.SwapTransparency | src/libmem.c:253-463 | documented test: in every run of any number of processes whose growths are harmless (clean ones are) a successful read returns the last byte its process wrote there |
| PagingRuns.RegionTransparency | src/libmem.c:71-463 | accesses inside live regions are enough: whatever is allocated, freed and swapped and whether or not growth finds frames, growths are clean, frames exclusive, none is lost by growths that find theirs, and under the documented test reads see the last write |
| PagingRuns.AsWrittenTransparency | src/libmem.c:253-463 | test as written: reads see the last write in runs with harmless growths in which no access goes to a swapped page |
| PagingFull.FullSwapRun | src/libmem.c:265-270 | while swap is full and a process allocates nothing, whatever the others do, its entries stay and its queue is the old one without as many of its oldest pages as it had accesses to pages not found; after as many as queued pages it is empty |
| PagingAddresses.TransparencyByAddress | src/libmem.c:332-463 | the documented test's transparency by virtual address, for accesses below 2^22: a read at region start + offset returns what the last write of its process to the same sum stored |
| PagingAddresses.RegionByAddress | src/libmem.c:332-463 | the same for every program that stays in its regions while its break is at most 2^22 |
| PagingAddresses.EventAddress | src/libmem.c:332-463 | a successful access by either test is of the byte at region start + offset modulo 2^22, in the memory of its own process |
| PagingAddresses.RegionBytes | src/libmem.c:332-463 | two successful accesses to one region in one state go to the same byte if and only if their offsets agree modulo 2^22 |
| PagingAddresses.AccessIsCall | src/libmem.c:396-463 | each read or write of a run is the page access and the byte access that the methods Read and Write are proved against, at region start + offset |
| PagingAddresses.OtherIsCall | src/libmem.c:71-185 | the other instructions of a run are init_mm, __alloc and __free on the map of their process; other processes and swap are untouched |
| PagingAddresses.AllocInRun | src/libmem.c:71-140 | an allocation of a run that no free node has room for starts at the old break, which moves past it, by a whole number of pages if RAM has the frames; any other one at the first node with room |
| PagingAddresses.FreeInRun | src/libmem.c:148-185 | a region freed in a run is the first free node, its id is cleared and nothing else changes |
| PagingPrograms.AsWrittenReadsStale | src/libmem.c:253-320 | a five-instruction program on which the test as written reads 9 where 7 was last written |
| PagingPrograms.AsWrittenClobbers | src/libmem.c:253-386 | a six-instruction program whose last write, as written and inside its own region, stores a byte of another process's page |
| PagingPrograms.UncleanReadsStale | src/mm64.c:196-206 | documented test: a growth over a swapped-out page after which a read returns the new frame's old byte, not the last one written |
| PagingPrograms.QueuedBreaks | src/libmem.c:271-285 | documented test: a growth over a queued page after which one frame backs a page of each of two processes and a write of one changes the other |
| PagingEager.EagerRun | src/mm-vm.c:119-154 | by either test: accesses inside live regions, with frames for each growth, keep the break aligned with exactly the pages below it resident; nothing is swapped, every access succeeds and reads see the last write |
| PagingEager.EagerAccess | src/libmem.c:332-386 | an access inside a live region succeeds on the fast path and evicts nothing |
| PagingEager.DistinctBytes | src/libmem.c:332-386 | distinct (process, address) pairs on resident pages are distinct physical bytes |
| MmStruct.MmStruct.PteSetFpn | src/mm64.c:130-141 | the page's slot becomes resident; every other entry is unchanged |
| MmStruct.MmStruct.PteSetSwap | src/mm64.c:111-123 | the page's slot becomes swapped; every other entry is unchanged |
| MmStruct.MmStruct.FindVictimPage | src/libmem.c:722-746 | unlinks the oldest queued page, or fails on an empty queue |
| MmStruct.MmStruct.PgGetpage | src/libmem.c:253-320 | in place, for either test: the new state is that of Paging.GetPage, and outright: it fails if and only if the page is not found and the queue is empty or swap full; a failure unlinks exactly the oldest queued page and changes nothing else; a page that is found changes nothing; else the oldest page goes to the first free swap frame and the target takes its frame and joins the queue as the newest |
| MmStruct.MmStruct.PgGetval | src/libmem.c:332-352 | page access, then the byte at frame * 256 + offset |
| MmStruct.MmStruct.PgSetval | src/libmem.c:365-386 | page access, then that one byte changed |
| MmStruct.MmStruct.AllocPagesRange | src/mm64.c:218-248 | the first req_pgnum free frames in order; on failure the free list ends up empty |
| MmStruct.MmStruct.VmapPageRange | src/mm64.c:183-210 | each page of the range becomes resident in its frame and no other entry changes; the pages join the queue upwards, the last one as the newest |
| MmStruct.MmStruct.VmMapRam | src/mm64.c:259-288 | all pages mapped to the first free frames in order, or none mapped, queue and entries unchanged, and the free frames gone |
| MmStruct.MmStruct.IncVmaLimit | src/mm-vm.c:119-154 | the break moves to the page boundary when frames suffice, by the bare size when they do not, not at all for an empty request |
| MmStruct.MmStruct.GetFreeVmrgArea | src/libmem.c:754-809 | the loop carves from the first fit and updates the list as Space.Carved |
| MmStruct.MmStruct.Alloc | src/libmem.c:71-140 | the region is [addr, addr + size), where addr is the start of the first free node with room, or the old break if there is none; no other id changes; the whole new state is that of Paging.AllocPages |
| MmStruct.MmStruct.Free | src/libmem.c:148-185 | the id, and no other, becomes (0, 0) and a region with bytes becomes the first free node before the unchanged others; fails on a (0, 0) region |
| MmStruct.MmStruct.Read | src/libmem.c:396-411 | the byte at the region's start plus offset, after the page access |
| MmStruct.MmStruct.Write | src/libmem.c:443-465 | that byte changed, after the page access |
| Barrier.StepInv | src/timer.c:21-93 | every critical section of every thread keeps the barrier invariant |
| Barrier.LockStep | src/timer.c:21-77 | in every interleaving a device running its slot has completed exactly _time calls, a live one is at most one behind |
| Barrier.TimeStands | src/timer.c:26-45 | _time advances only by one and only when every unfinished device has arrived |
| Barrier.TimerExit | src/timer.c:54-59 | the timer thread ends only when every device has detached |
| Barrier.NoLostWakeup | src/timer.c:30-77 | a blocked timer waits for a device that can still move; a sleeping device has its flag set and the timer alive to clear it |
| Barrier.SpuriousWakeup | src/timer.c:31-36 | a spurious wakeup of a sleeping device or of the timer makes it test its condition again, which puts it back to sleep with nothing changed |
| Barrier.RoundBound | src/timer.c:26-45 | once all devices have arrived or detached, n + 2 timer steps bring the tick |
| Barrier.ReleaseBound | src/timer.c:48-53 | after the tick, within n + 1 timer steps every device's flag is clear and it is awake |
| Barrier.WholeRound | src/timer.c:26-53 | one round: once all have arrived or detached, 2n + 3 timer steps bring the tick and let every device go |
| Barrier.ExitBound | src/timer.c:21-59 | once all devices are detached, wherever the timer is in its round, it ends within 3n + 4 of its steps, and within 2n + 2 once timer_stop is set |
| Barrier.ExitExactly | src/timer.c:22-59 | that number of steps is exact: the thread has ended if and only if it has made them, so a round begun too early is followed by another one exactly when timer_stop was not set before its end |
| Barrier.StopEndsRounds | src/timer.c:22-59 | once timer_stop is set no round begins: in every run _time moves on by at most the tick of the round being collected, not at all from the top of the loop or the releasing half; from the top the next timer step ends the thread |
| Barrier.StopSets | src/timer.c:120-122 | stop_timer sets the flag, which stays set and which no other step sets, and leaves timer, devices and time alone |
| Scheduler.Queue.Enqueue | src/queue.c:12-18 | appends, or drops silently at 50 |
| Scheduler.Queue.Dequeue | src/queue.c:20-31 | removes and returns the head; the rest keep their order |
| Scheduler.Queue.Purgequeue | src/queue.c:33-48 | removes the first occurrence only |
| Scheduler.Queue.Find | src/sys_mem.c:38-48 | the first entry with the pid, or none |
| Scheduler.Scheduler.constructor | src/sched.c:37-50 | empty queues, full budgets, empty running list |
| Scheduler.Scheduler.GetMlqProc | src/sched.c:59-102 | the scans, the reset and the charge amount to Mlq.Get on queues, budgets and running list |
| Scheduler.Scheduler.PutMlqProc | src/sched.c:104-132 | the process joins the tail of its priority's queue and nothing else changes |
| Scheduler.Scheduler.RemoveProc | src/sched.c:146-150 | one occurrence leaves the running list and nothing else changes |
| Mlq.Choose | src/sched.c:66-95 | NULL if and only if all queues are empty; otherwise the first priority that has both budget and a process; with none, budgets are reset and it is the first one with a process |
| Mlq.GetShape | src/sched.c:59-102 | the head of the chosen queue is handed out, leaves the queue, joins the tail of the running list if that holds under 50, and is charged to its budget, after the reset to 140 - p if there is one; nothing else changes |
| Mlq.BudgetLaw | src/sched.c:41-44 | slot[p] plus the dispatches from p since the last reset is always 140 - p |
| Mlq.ResetMeansServed | src/sched.c:75-94 | at a reset every non-empty queue has had exactly 140 - p dispatches |
| Mlq.GetLowersPotential | src/sched.c:59-102 | a get that passes over a waiting queue uses up its potential |
| Mlq.BoundedWaiting | src/sched.c:59-132 | with any adds and puts interleaved, position k of queue q is the (k+1)-st dispatched from q within (k+1)(9870 + B_q) gets |
| OsFair.SchedNext | src/os.c:57-180 | each step of the machine makes at most one scheduler call, get_proc, put_proc, add_proc or remove_proc, and changes the scheduler by that call only |
| OsFair.ReadyIsDispatched | src/os.c:57-117 | bounded waiting on the machine: from any reachable state, in every interleaving, the process at position k of ready queue q has been dispatched once more when the CPUs have called get_proc (k+1)(9870 + B_q) times |
| OsStop.StopStep | src/os.c:51-186 | every step keeps a CPU attending to any ready process |
| OsRuns.StepInv | src/os.c:51-186 | every step of CPUs, loader and timer keeps the machine invariant |
| OsRuns.NoPrematureStop | src/os.c:57-186 | in every interleaving of any workload, when all CPUs have stopped every process was loaded and all queues are empty; every process has finished but for those dropped at a full queue, and with at most 50 processes of each priority there are none |
| OsRuns.ExactlyOnePlace | src/os.c:57-180 | a loaded process is in exactly one position of the queue of its priority, on exactly one CPU, finished, or was dropped unfinished; the last only with more than 50 processes of one priority |
| OsLoad.LoadedOnTime | src/os.c:150-180 | process x is loaded exactly in its slot, the later of its start time and the slot after that of its predecessor: in no run is it loaded before or still unloaded after; none of its instructions is executed before |
| OsRuns.NeverDropped | src/queue.c:14-15 | with at most 50 processes of each priority a ready queue has room for every process that is not in it, and none is dropped |
| OsLoss.LostIff | src/queue.c:12-18 | exactly: an added or yielded process is in no queue afterwards if and only if its queue already holds 50 |
| OsLoss.LostForGood | src/os.c:57-84 | a dropped process is never dispatched or run again |
| OsLossWitness.FiftyTwoLoseOne | src/os.c:150-180 | 52 processes of one priority have a run at whose end all threads have ended and one process, dropped at an add, never finished |
| OsRuns.ExecutionOrder | src/cpu.c:61-70 | at all times a process has executed 0 .. pc-1 once each in order; no CPU executes twice in one slot |
| OsRuns.CompleteRun | src/os.c:57-117 | at the end a process that was not dropped (none is with at most 50 of each priority) has executed all n instructions on exactly max(1, ceil(n / t)) dispatches |
| OsRuns.DoneForGood | src/os.c:71-77 | a finished process is never dispatched or run again |
| OsRuns.PidLookup | src/sys_mem.c:38-58 | if the dispatches of the workload number at most 50, each process is listed once per dispatch (once less when finished) and every held process is found |
| OsRuns.ListedIff | src/sched.c:97-98 | exactly: a dispatched process is on the running list afterwards if and only if it was on it or the list had room |
| OsPidWitness.HeldButNotListed | src/sys_mem.c:38-58 | a run of two processes after which a CPU holds a process that the full list dropped |
| OsRuns.NeverStuck | src/os.c:57-186 | some thread can step without a spurious wakeup if and only if the timer thread has not ended, and by then all other threads have ended |
| OsRuns.StopsInTime | src/os.c:57-186 | in every interleaving, spurious wakeups included, _time never exceeds latest start + one slot per process + one per instruction (and empty process) + 2, and stays below it until all threads have detached |
| OsEnds.EveryRunStops | src/os.c:57-186 | every run without spurious wakeups has at most (latest start + processes + work + 3) * (18 * CPUs + 23) steps (MaxSteps), and one that cannot go on has all threads ended and every process loaded and finished, but for dropped ones, of which there are none with at most 50 of each priority |
| OsEnds.SomeRunEnds | src/os.c:57-186 | every workload has a run that ends so |

## Left out

- `src/mm.c`, `src/mem.c`, `src/paging.c`: compiled out or obsolete.
- `src/loader.c`, configuration reading, process start-up in `main`, printing and dumps, the system call table: input, output and plumbing.
- Kernel memory functions (`libkmem_*`, `__kmalloc`, caches): empty bodies.
- `free_pcb_memph`: has no caller and walks the tree as a flat table.
- Direct user calls of system call 17 (MAP, SWP, IO) and `vmap_pgd_memset`: they bypass the allocator.
- Sequential devices and the cursor of `src/mm-memphy.c`: always an error from `MEMPHY_read` and `MEMPHY_write`.
- `validate_overlap_vm_area` over several areas: OVERLAP is constant 0 and only area 0 exists; its refusal of empty requests is modelled.
- Uninitialised memory: `symrgtbl` is never cleared by `init_mm` and the list of a one-frame device has an unset tail; the model starts both empty.
- `get_symrg_byid` with id 30: the bound check lets it through to memory past the table.
- Weak memory: lock-protected sections and accesses to `done` are sequentially consistent steps, and each memory operation is atomic although `__read` takes no lock.
- The unused `ready_queue`, `run_queue` and `queue_empty` of `src/sched.c`.
- Linked lists of frames, regions and queued pages are sequences: node identity and aliasing are not captured.
- The CPU loop, the load loop and the timer are step functions on one machine state rather than methods, so that all interleavings can be quantified over.
- PagingRuns.AsWrittenTransparency: asks that no access of the run go to a swapped page; Paging.AsWrittenResident shows that this is when the routine as written meets its contract.
- OsRuns.PidLookup: one direction only; a workload with more than 50 dispatches may still fit if early processes finish before late ones start. OsRuns.ListedIff has the exact condition of each dispatch.
- OsEnds.EveryRunStops: about runs without spurious wakeups, of which there may be any number; OsRuns.StopsInTime bounds the time slots of all runs.
