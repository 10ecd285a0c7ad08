# A verified model of the driver, module and report server

This project models the stateful core of an anti-cheat system (a Windows kernel driver, a user-mode
module and a report server) in Dafny and proves what its protocols keep over every run. The kernel,
the hardware and the allocator are oracles: an allocation succeeds or fails, a lookup finds an object
or not, a page is mapped or not. `dafny verify dfyconfig.toml` checks the whole project.

| file | part of the system |
|---|---|
| `ApcContext.dfy`, `ApcProtocol.dfy` | the table of APC contexts and every interleaving of the thread that queues APCs, the APCs and the query that reclaims contexts |
| `IrpQueue.dfy`, `ReportProtocol.dfy` | report delivery through pending IRPs and the deferred list, with atomic operations and with every interleaving of any number of threads |
| `EventSlots.dfy` | the five user-mode slots that back pending IRPs |
| `PageWalk.dfy`, `PageTranslation.dfy`, `ScannedPages.dfy`, `UnlinkedScan.dfy` | the page-table walk and the search for unlinked processes |
| `LinkedLists.dfy`, `ReferenceLedger.dfy`, `NotifyProtocol.dfy` | the linked lists and FIFO, and the object references taken on their behalf, with whole notifications and with every interleaving of their parts |
| `ReportBatch.dfy` | the server's batch parser |
| `ImportCrypt.dfy`, `Words.dfy` | the encrypted import table and its resolution |
| `ThreadPool.dfy`, `TimerRegistry.dfy` | the module's job queue and timer registry |
| `NmiSection.dfy` | the section guarded by nmi_status |
| `Tallies.dfy`, `Wrappers.dfy` | counting over sequences, used by the conservation proofs, and optional values |

Each locked section is one step of a state machine over values. Where the code updates fields, arrays
or pointers in place, a class or an array method does the same, and its contract, or a lemma beside it,
says which step or function of the old state it computes.

Some branches of the code do not do what the surrounding code intends. The model keeps them, and the
lemmas say exactly when the intended property holds:

* a query that looks at an APC context between its insertion and its `allocation_in_progress` flag frees a
  context in use, and only then (`WindowIsExact`, `WindowIsReachable`);
* an APC that finds no thread entry never decrements, which pins its context for ever
  (`AbandonedApcPinsContext`, `AbandonedIsReached`);
* a deferred report that does not fit its IRP is discarded without lowering the deferred count
  (`InsertKeepsValidExactly`), after which order is lost (`OvertakingIsReached`); the count stays too
  high by the number of such misfits (`OwnershipOverRuns`), and the first query that then meets an empty
  list reads and frees the list head (`InsertionFaultsExactly`, `QueryFaultsExactly`, `FaultIsReached`);
* a report whose list entry cannot be allocated is leaked (`OwnershipOverRuns`);
* when report and insertion interleave, an IRP can wait while a report is deferred
  (`InterleavingStrandsReport`); it is said which steps break this (`ExclusionStepExactly`), which
  windows to stay out of (`ExclusionOutsideWindows`) and what a step inside one leads to
  (`WindowBreaksExclusion`);
* the PDE, PTE and 2 MB fields drop physical address bits 51:50 and the CR3 field drops bits 51:48
  (`DeclaredFieldsExact`, `Cr3FieldExact`, `TranslationsAgreeExactly`, `WideAddressIsMisread`);
* candidates found after as many as there are processes are dropped (`LateCandidatesAreLost`);
* every successful lookup in the notify routines leaves a reference behind (`DrainedLeavesLookups`), and two
  deletions that find the same entry, or a deletion and the drain, which the routines themselves do not keep
  apart, drop its references twice (`RemovalBalancesExactly`, `ConflictBreaksBalance`, `DoubleDeletionIsReached`, `DrainConflictIsReached`);
* the Lookaside routines return nodes of every list to the thread list's lookaside list, so a freed node
  goes home if and only if it belongs to the thread list (`HomeExactly`, `ProcessCreateNotifyRoutine`);
* a batch with code 10 behind whole reports is never finished (`NeverEndsExactly`), and a short report of code
  80 behind whole reports, such as the driver's own 504-byte structure, faults (`CrashesExactly`,
  `ShortAllocationReportCrashes`);
* an import table whose length is not a multiple of four would decode its tail wrongly
  (`DecryptsExactly`);
* a failed timer creation leaves a zero handle in the array (`InsertCallback`), the removal queue lowers the
  counter twice (`QueryRemovalQueue`), and the failure code of the wait is used as an index
  (`DispatchCallbackForIndex`);
* the successful NMI path frees the context while the callback on it is still registered
  (`DanglingExactly`, `DanglingIsReached`).

Where comments and code disagree the model follows the code: driver/pool.c:265-271 speaks of a margin of
0x50 where the constant is 0x90, driver/io.c:252 promises that a submitted buffer is always freed, which
the failed allocation of a list entry breaks, and module/dispatcher/threadpool.cpp:13-17 states the wait
predicate inverted.

## Model

| member | source | states |
|---|---|---|
| `ApcContext.DriverConfig.GetApcContext` | driver/apc.c:14-33 | the loop returns the first slot's context with the identifier, or NULL when no slot has one |
| `ApcContext.DriverConfig.IncrementApcCount` | driver/apc.c:63-76 | exactly the found context's count goes up by one; nothing else changes |
| `ApcContext.DriverConfig.DecrementApcCount` | driver/apc.c:78-92 | exactly the found context's count goes down by one; nothing else changes |
| `ApcContext.DriverConfig.InsertApcContext` | driver/apc.c:148-167 | the context goes into the lowest free slot; with no free slot, or while unloading, nowhere |
| `ApcContext.DriverConfig.FreeApcContextStructure` | driver/apc.c:41-61 | frees and clears the slot if and only if the context is in a slot and its count is not positive |
| `ApcContext.DriverConfig.QueryActiveApcContextsForCompletion` | driver/apc.c:121-146 | one pass reclaims exactly the contexts with no count and no allocation in progress, with their module data, and leaves every other slot and context as it was |
| `ApcProtocol.StepKeepsInv` | driver/apc.c:41-146 | every step outside the window keeps the invariant, including count + APCs queued but not counted = APCs not yet decremented |
| `ApcProtocol.ContextOutlivesItsApcs` | driver/modules.c:1097-1315 | in every run that keeps the query out of the window no freed memory is touched or freed again, and every queued or running APC has its context and module data live |
| `ApcProtocol.WindowIsExact` | driver/modules.c:1307-1309 | the query's check keeps the invariant if and only if the context is not waiting for its flag; if it is, the allocating thread's next access hits freed memory |
| `ApcProtocol.WindowIsReachable` | driver/modules.c:1267-1309 | a run from the initial state that puts the query in the window |
| `ApcProtocol.SlotSwept` | driver/apc.c:124-144 | the fetch, check and free steps on one slot amount to one step of the atomic sweep |
| `ApcProtocol.PassSweeps` | driver/apc.c:121-146 | an uninterrupted pass of the fine-grained query computes the same table as the atomic query |
| `ApcProtocol.QueryReclaimsWhenDone` | driver/apc.c:121-146 | an uninterrupted query frees the context and its modules if and only if allocation has ended and no APC carries it; then all slots are clear and a new operation can start |
| `ApcProtocol.PassReclaims` | driver/apc.c:121-146 | in any interleaving, once allocation has ended and no APC carries the context, every run that contains the end of a whole pass frees the context and its modules on the way and leaves all slots clear at that point |
| `ApcProtocol.ApcRunsToDecrement` | driver/modules.c:1066-1160 | from every stage but the abandoned one an APC that is run down, or runs to its end, decrements: the run is legal, the APC is gone, and the count of its context in a slot is one lower |
| `ApcProtocol.EveryOperationCanComplete` | driver/modules.c:1066-1315 | from every state of the invariant with no abandoned APC a legal run ends the allocation, lets every APC decrement and the query pass, and frees the context in the slot with its module data |
| `ApcProtocol.FaultsExactly` | driver/apc.c:41-146 | a step faults if and only if the context it touches, or the module data it needs, has been freed |
| `ApcProtocol.UnloadingOccupiesNothing` | driver/apc.c:148-152 | from the unload request on no step occupies a slot |
| `ApcProtocol.CountStepsIncrement` | driver/apc.c:63-76 | the lookup step and the addition step, uninterrupted, change the table as IncrementApcCount does |
| `ApcProtocol.DecrementStepsDecrement` | driver/apc.c:78-92 | the lookup step and the subtraction step, uninterrupted, change the table as FreeApcAndDecrementApcCount does |
| `ApcProtocol.InsertStepInserts` | driver/apc.c:148-167 | the insertion step changes the table as InsertApcContext does |
| `ApcProtocol.AbandonedApcPinsContext` | driver/modules.c:1115-1119 | an APC that left through the early return keeps its context and module data allocated through every later run |
| `ApcProtocol.AbandonedIsReached` | driver/modules.c:1115-1119 | a run from the initial state to such an APC |
| `IrpQueue.IrpQueueHead.RemoveNextIrp` | driver/io.c:97-115 | takes the oldest IRP and lowers the count, or reports an empty queue unchanged |
| `IrpQueue.IrpQueueHead.IrpQueueDeferReport` | driver/io.c:224-249 | past the cap the buffer is freed, without a list entry nothing happens, otherwise the report is appended and counted |
| `IrpQueue.IrpQueueHead.IrpQueueCompleteIrp` | driver/io.c:256-294 | completes the oldest IRP with the report, or as too small, or defers the report; the buffer is freed once or owned by the list, and the invariant is kept if it held |
| `IrpQueue.IrpQueueHead.IrpQueueQueryPendingReports` | driver/io.c:155-189 | delivers the oldest deferred report if it fits; its buffer and record are freed once either way; a positive count over an empty list is a fault |
| `IrpQueue.IrpQueueHead.InsertIrpIntoQueue` | driver/io.c:998-1029 | completes the IRP from the deferred list or queues it, and faults if and only if the list is empty under a positive count; the invariant is kept if and only if nothing is deferred or the oldest report fits |
| `IrpQueue.SubmitKeepsValid` | driver/io.c:208-294 | a submission keeps counts, ownership and the cap of 101, and that no IRP waits while a report is deferred |
| `IrpQueue.InsertKeepsValidExactly` | driver/io.c:155-189 | an insertion keeps the invariant if and only if nothing is deferred or the oldest report fits; otherwise the count is one too high |
| `IrpQueue.CancelKeepsValid` | driver/io.c:199-206 | cancelling keeps counts, ownership and exclusion |
| `IrpQueue.OrderOverRuns` | driver/io.c:137-294 | over every run in which no insertion is too small for the oldest deferred report, the delivered reports followed by the deferred list are the accepted reports in arrival order |
| `IrpQueue.IrpsOverRuns` | driver/io.c:191-206 | over every run that has not faulted, misfits included, each IRP is pending or completed exactly as often as it was inserted |
| `IrpQueue.IrpOrderOverRuns` | driver/io.c:97-115 | over every run without a misfit or a cancellation, requests completed followed by the queue are the requests inserted, in order: first come, first served |
| `IrpQueue.CancelKeepsOrder` | driver/io.c:109-115 | cancelling takes one IRP out of the queue and leaves the others in their order |
| `IrpQueue.CancelledOverRuns` | driver/io.c:199-206 | over every run that has not faulted, exactly the IRPs whose cancellation was requested are completed as cancelled, in order |
| `IrpQueue.DeliveriesFitOverRuns` | driver/io.c:664-683 | over every run each report delivered is not empty and fits the request it went to |
| `IrpQueue.RefusalsAreForRoom` | driver/io.c:256-294 | the oldest request is completed with the report if that is not empty and fits, and otherwise as too small |
| `IrpQueue.OwnershipOverRuns` | driver/io.c:123-294 | over every run that has not faulted, misfits included, the only live allocations without an owner are buffers whose list entry could not be allocated, and the deferred count exceeds the list by the number of misfits |
| `IrpQueue.DeliveryOverRuns` | driver/io.c:97-294 | the whole-run laws together, for runs without a misfit: order, exactly-once completion, ownership, and the invariant |
| `IrpQueue.InsertionFaultsExactly` | driver/io.c:117-134 | after any run without a fault the next insertion faults if and only if nothing is deferred and some misfit came before |
| `IrpQueue.OvertakingIsReached` | driver/io.c:155-189 | a run from the empty driver with one misfit, after which a late report has been delivered before an older one that is still deferred |
| `IrpQueue.FaultIsReached` | driver/io.c:155-189 | two requests too small for one deferred report lead to the fault |
| `IrpQueue.SlotSizedTrafficIsLegal` | module/kernel_interface/kernel_interface.cpp:53-67 | with 1000-byte slots and reports no larger, every event is legal and only the cap or the allocator drops a report |
| `IrpQueue.SizedRunsAreLegal` | module/kernel_interface/kernel_interface.cpp:259-278 | every run of such traffic is free of misfits |
| `IrpQueue.SizedDelivery` | module/kernel_interface/kernel_interface.cpp:259-278 | so the laws of order, exactly-once completion and ownership hold of it from the empty driver on, without a hypothesis on fit |
| `ReportProtocol.ConservationInEveryInterleaving` | driver/io.c:97-294 | with any number of threads between the locked sections, misfits included: every IRP queued, held or completed as often as it arrived; every report delivered, deferred, held or dropped as often as it was submitted; every live address has one owner; the deferred count exceeds its list by the misfits, is bounded by the cap plus the number of threads, and only a misfit leads to a fault |
| `ReportProtocol.HeldMemoryIsLive` | driver/io.c:130-294 | memory a thread holds is live, not in the deferred list and held by no other thread |
| `ReportProtocol.UninterruptedReportIsSubmit` | driver/io.c:256-294 | the steps of one report, uninterrupted, are the atomic submission |
| `ReportProtocol.UninterruptedInsertionIsInsertIrp` | driver/io.c:998-1029 | the steps of one insertion that does not fault, uninterrupted, are the atomic insertion |
| `ReportProtocol.UninterruptedCancelIsCancelIrp` | driver/io.c:199-206 | the steps of one cancellation, uninterrupted, are the atomic cancellation |
| `ReportProtocol.EveryThreadCanFinish` | driver/io.c:155-294 | no thread is ever stuck: unless something has faulted its next step is possible and brings its operation closer to the end |
| `ReportProtocol.InterleavingStrandsReport` | driver/io.c:256-294 | a run of two threads after which an IRP is queued while a report is deferred |
| `ReportProtocol.ExclusionStepExactly` | driver/io.c:155-294 | any step keeps that no IRP waits while a report is deferred if and only if it does not append to the deferred list over a non-empty queue or queue an IRP over a non-empty deferred list |
| `ReportProtocol.ExclusionOutsideWindows` | driver/io.c:155-294 | in every interleaving in which no IRP is queued while a report is about to be deferred and no report is deferred while an IRP is about to be queued, no IRP waits while a report is deferred |
| `ReportProtocol.WindowBreaksExclusion` | driver/io.c:224-294 | a step inside a window leaves another thread a continuation after which an IRP waits while a report is deferred |
| `ReportProtocol.QueryFaultsExactly` | driver/io.c:117-134 | a query faults if and only if nothing is deferred although some report was discarded for want of room |
| `ReportProtocol.SizedInterleavingsNeverFault` | module/kernel_interface/kernel_interface.cpp:259-278 | with reports of 1 to 1000 bytes and 1000-byte requests no interleaving faults, and both counts are the lengths of their lists |
| `EventSlots.EventVector.GetFreeEventEntry` | module/kernel_interface/kernel_interface.cpp:16-27 | claims the first free slot and no other, or reports that there is none |
| `EventSlots.EventVector.ReleaseEventObject` | module/kernel_interface/kernel_interface.cpp:69-81 | releases the completed slot as the machine's step does and clears its buffer and no other |
| `EventSlots.EventVector.GetBufferFromEventObject` | module/kernel_interface/kernel_interface.cpp:83-93 | finds the slot's buffer if and only if the event belongs to the vector |
| `EventSlots.ArmingFindsSlot` | module/kernel_interface/kernel_interface.cpp:259-278 | a thread about to send a request finds a free slot in every reachable state |
| `EventSlots.SlotsAreConserved` | module/kernel_interface/kernel_interface.cpp:16-93 | for any number of completion threads, refused sends included: slots in use are the requests pending, the completions not released, the slots claimed and the slots lost; as many are lost as sends were refused; no slot backs two of these |
| `EventSlots.TrafficIsCounted` | module/kernel_interface/kernel_interface.cpp:38-51 | lost slots are the refused sends, requests in the driver those it kept less those it completed, queued completions those and the requests answered at once, less those collected |
| `PageWalk.IsPhysicalAddressInPhysicalMemoryRange` | driver/pool.c:373-395 | the loop decides membership in the listed ranges up to the terminator |
| `PageWalk.InRangeMeansListed` | driver/pool.c:373-395 | membership if and only if some range before the terminator covers the address, its end included |
| `PageWalk.EnumerateKernelLargePages` | driver/pool.c:397-412 | block n of the result is base + n * 4 KB, for every n below the block count |
| `PageWalk.WalkPt` | driver/pool.c:589-621 | the innermost loop scans the pages of the 512 linear pages of one page table, in order |
| `PageWalk.WalkPdEntry` | driver/pool.c:542-622 | one page-directory entry yields the pages of its 512 linear pages: none, the tiles of a 2 MB page, or those of a page table |
| `PageWalk.WalkPdptEntry` | driver/pool.c:499-623 | one PDPT entry yields the pages of its 512 * 512 linear pages: none, the tiles of a 1 GB page, or those of a page directory |
| `PageTranslation.WalkKernelPageTables` | driver/pool.c:442-627 | the four nested loops scan exactly one page for each linear page that translates on its own, in ascending order; with tables inside the declared fields these are the pages of architectural translation |
| `PageTranslation.DeclaredFieldsExact` | driver/common.h:1120-1239 | the declared fields agree with section 4.5 of the Intel SDM, Volume 3A, if and only if bits 51:50 of the entry are clear |
| `PageTranslation.ArchitecturalBits` | driver/common.h:1120-1239 | the reference fields written out: bit 0 present, bit 7 large, an address is the entry below bit 52 less the bits below its page size |
| `PageTranslation.Cr3FieldExact` | driver/pool.c:472-476 | the PML4 table named by the driver's CR3 field is the architectural one if and only if bits 51:48 of CR3 are clear |
| `PageTranslation.TranslationsAgreeExactly` | driver/common.h:1156-1239 | read with the declared fields a page directory gives the architectural frame if and only if the entry that maps the page keeps bits 51:50 clear, given that the page table is found |
| `PageTranslation.TranslationsAgreeAbove` | driver/common.h:1120-1216 | above the page directory the two readings never differ |
| `PageTranslation.PageIsTranslated` | driver/pool.c:442-627 | for every linear address whose PDE and PTE keep bits 51:50 clear, and whose table entries the kernel, where it can read them, reads as physical memory holds them, the page the walk scans is the one translation through physical memory gives along a readable path |
| `PageTranslation.ScannedExactly` | driver/pool.c:442-627 | a page is scanned for a linear address if and only if translation yields a frame, every entry on the path can be read, the leaf is in a listed range, and its virtual address is not NULL and valid; the page is that address or the selected block behind it |
| `PageTranslation.CanReadExactly` | driver/pool.c:476-501 | an entry can be read if and only if its table's virtual address is not NULL and valid, and the entry's address is valid |
| `PageTranslation.CoversExactly` | driver/pool.c:383-389 | a range covers its start, its start plus its size modulo 2^64, and what lies between |
| `PageTranslation.WalkMatchesArchitecture` | driver/pool.c:442-627 | the pages of the walk are those of 4-level translation through physical memory, in order and with multiplicity, when CR3 and the present PDEs and PTEs on the paths fit the declared fields and the kernel reads the table entries on the paths as physical memory holds them; nothing is asked of any other memory |
| `ScannedPages.PageScannedExactly` | driver/pool.c:442-627 | a page is scanned by the walk if and only if it is the translated page of some linear address |
| `ScannedPages.WideAddressIsMisread` | driver/common.h:1175-1194 | a page table, read by the kernel as it is, whose page address has bit 51 set, for which the walk scans another page than translation gives |
| `UnlinkedScan.MatchesExactly` | driver/pool.c:659-669 | with 64-bit wrap-around a slot matches a process if and only if they are at most 0x90 apart and the slot's window does not wrap |
| `UnlinkedScan.Record` | driver/pool.c:349-356 | the buffer holds the first process_count candidates in the order found |
| `UnlinkedScan.CheckIfProcessAllocationIsInProcessList` | driver/pool.c:646-670 | after each process a slot is zero or unmatched by every process so far |
| `UnlinkedScan.FindUnlinkedProcesses` | driver/pool.c:676-752 | the reports are exactly the unmatched ones among the first process_count candidates of the pages the walk scans, less the header size; no list or no buffer gives its status and no report |
| `UnlinkedScan.ReportedExactly` | driver/pool.c:707-744 | an object is reported if and only if it heads one of those candidates, nothing listed is near and a report could be allocated |
| `UnlinkedScan.CandidatesInOrder` | driver/pool.c:277-365 | candidates come page by page in the order of the pages |
| `UnlinkedScan.ReportedFromPageTables` | driver/pool.c:442-744 | every object reported heads an unmatched candidate on a page that translation gives to some linear address, and with enough slots and memory every such object is reported |
| `UnlinkedScan.ListOrderIrrelevant` | driver/pool.c:646-670 | the order of the process list and repeats in it do not matter |
| `UnlinkedScan.LateCandidatesAreLost` | driver/pool.c:691-697 | if the first process_count candidates are listed processes nothing is reported, whatever is found later |
| `LinkedLists.ListHead.ListInsert` | driver/list.c:36-49 | prepends one node; the list stays acyclic |
| `LinkedLists.ListHead.ListRemoveEntry` | driver/list.c:84-114 | deletes exactly the given node and frees it, or changes nothing; the node goes home if and only if the list's nodes come from the pool |
| `LinkedLists.ListHead.LookasideListRemoveEntry` | driver/list.c:116-147 | the same, with the node returned to the thread list's lookaside list; the node goes home if and only if the list is the thread list |
| `LinkedLists.ListHead.FreeFirstEntry` | driver/list.c:57-78 | hands the first node to the callback, unlinks and frees it; false on an empty list |
| `LinkedLists.ListHead.Drain` | driver/callbacks.c:75-111 | the loop ends with an empty list after one callback and one free per node, in list order; the nodes go home if and only if the drain returns them to the list's own place, or there are none |
| `LinkedLists.ListHead.HomeExactly` | driver/list.c:116-172 | nodes all freed in one place are home if and only if the list's nodes come from there, or nothing was freed |
| `LinkedLists.ListHead.Find` | driver/callbacks.c:413-455 | returns the first node that matches, or NULL when none does |
| `LinkedLists.ListHead.Enumerate` | driver/callbacks.c:113-174 | visits every node once, in list order |
| `LinkedLists.WithoutDeletesOnly` | driver/list.c:84-114 | removal deletes that node and no other |
| `LinkedLists.QueueHead.QueuePush` | driver/queue.c:14-39 | appends at the end and counts, or changes nothing when allocation fails |
| `LinkedLists.QueueHead.QueuePop` | driver/queue.c:41-64 | returns and frees the oldest node, and counts; nothing from an empty queue |
| `ReferenceLedger.NotifyRoutine` | driver/callbacks.c:457-566 | the shared routine changes list and references as the ledger's step does, early returns and failed allocation included |
| `ReferenceLedger.CreatedThenDeleted` | driver/callbacks.c:478-516 | creating an object and deleting it again restores the list, whatever else is listed, and drops the references of its entry, the other object's and its own |
| `ReferenceLedger.NothingHappensWithout` | driver/callbacks.c:469-510 | a failed lookup, a failed allocation and a deletion of what is not listed change no list and drop nothing, and take only the lookups' references |
| `ReferenceLedger.LookupsOverRuns` | driver/callbacks.c:469-473 | over every run the lookups are those of the notifications that reach an active list, found objects only, in order; unregistering is what makes a list inactive |
| `ReferenceLedger.UnregisteredStaysEmpty` | driver/callbacks.c:47-69 | once a list is unregistered and drained no notification fills it again |
| `ReferenceLedger.ProcessCreateNotifyRoutine` | driver/callbacks.c:457-517 | the same on the process list, whose nodes stay where they belong if and only if none is ever removed |
| `ReferenceLedger.ThreadCreateNotifyRoutine` | driver/callbacks.c:519-566 | the same on the thread list, whose nodes always go home |
| `ReferenceLedger.DrainList` | driver/callbacks.c:33-101 | draining drops both references of every entry, once |
| `ReferenceLedger.CleanupProcessListOnDriverUnload` | driver/callbacks.c:75-87 | the drain of the process list: both references of every entry are dropped, and the nodes are home if and only if none was freed |
| `ReferenceLedger.CleanupThreadListOnDriverUnload` | driver/callbacks.c:89-101 | the drain of the thread list: both references of every entry are dropped, and the nodes are home |
| `ReferenceLedger.LedgerOverRuns` | driver/callbacks.c:457-566 | over every run of notifications and drains, each object's outstanding references are its occurrences in entries plus the lookups that found it |
| `ReferenceLedger.ListedObjectKeepsReference` | driver/callbacks.c:457-566 | an object named by a list entry keeps a reference in every reachable state |
| `ReferenceLedger.DrainedLeavesLookups` | driver/callbacks.c:75-101 | after both drains an object has exactly one reference per lookup that found it, none if and only if no lookup did |
| `NotifyProtocol.LedgerInEveryInterleaving` | driver/callbacks.c:457-566 | with any number of threads between finding, dropping and removing an entry, and no entry taken twice: references are those of listed entries, lookups and entries about to be listed, less those an unfinished deletion has dropped, and never fewer than the lookups |
| `NotifyProtocol.ListedKeepsReference` | driver/callbacks.c:457-566 | over the same interleavings both objects of every listed entry keep a reference, even between the drop and the removal of a deletion |
| `NotifyProtocol.EveryRoutineCanFinish` | driver/callbacks.c:457-566 | every routine runs to its end: its next step is possible and brings it closer |
| `NotifyProtocol.RemovalBalancesExactly` | driver/callbacks.c:506-516 | the removal that ends a deletion keeps an object's balance if and only if the entry is still listed or does not hold the object |
| `NotifyProtocol.DoubleDeletionBreaksBalance` | driver/callbacks.c:506-516 | a deletion that finds an entry another deletion has can be continued so that the entry's key is out of balance |
| `NotifyProtocol.DrainBreaksBalance` | driver/callbacks.c:75-101 | so can the drain of an entry that a deletion has |
| `NotifyProtocol.ConflictBreaksBalance` | driver/callbacks.c:457-566 | together: from every state of the invariant, each step that takes an entry twice has a continuation out of balance, so the runs without such steps are the ones to ask for |
| `NotifyProtocol.DoubleDeletionIsReached` | driver/callbacks.c:457-517 | a run from the start: one insertion, two deletions that find the entry, and its key out of balance |
| `NotifyProtocol.DrainConflictIsReached` | driver/callbacks.c:75-101 | a run from the start: one insertion, a deletion that finds the entry, the drain, and its key out of balance |
| `ReportBatch.ClientReport.HandleMessage` | server/Message/ClientReport.cs:81-212 | the loop's outcome, response, visited reports and final offset are those of the parse function, and the rows stored are those of the visited reports |
| `ReportBatch.StoresExactly` | server/Message/ClientReport.cs:214-605 | of a batch of whole reports, and in their order, exactly those bodies are stored in which a byte of a field the handler inspects is not zero, and every body of code 80 |
| `ReportBatch.RowExactly` | server/Message/ClientReport.cs:214-605 | the same for one report |
| `ReportBatch.ShortOffsets` | server/Types.cs:51-131 | the fields inspected for codes 20, 40 and 100 lie where sequential layout puts them |
| `ReportBatch.NmiOffsets` | server/Types.cs:74-80 | the same for code 50 |
| `ReportBatch.LongOffsets` | server/Types.cs:58-91 | the same for codes 30 and 60 |
| `ReportBatch.HandleOffsets` | server/Types.cs:94-104 | the same for code 70 |
| `ReportBatch.ThreadOffsets` | server/Types.cs:115-124 | the same for code 90 |
| `ReportBatch.RefusalAnswers` | server/Message/ClientReport.cs:83-88 | a batch that is refused answers 1 if no code could be read at its start and 0 if a later code is not known |
| `ReportBatch.ReadFrame` | server/Helper.cs:17-38 | a structure read behind a prefix and a packet header is the report's own bytes |
| `ReportBatch.RoundTrip` | server/Message/ClientReport.cs:65-212 | every batch of well-formed reports is visited report by report, in order, and bytesRead ends at bufferSize |
| `ReportBatch.FramingExact` | server/Message/ClientReport.cs:81-212 | a buffer is accepted and consumed to its last byte if and only if it is such a batch |
| `ReportBatch.EndsExactly` | server/Message/ClientReport.cs:90-208 | for any buffer and offset the loop, turn by turn, ends if and only if no turn reads code 10, and if and only if the parse function does not spin |
| `ReportBatch.NeverEndsExactly` | server/Message/ClientReport.cs:90-208 | from its start the loop never ends if and only if some whole reports, encoded, are a prefix of the buffer shorter than bufferSize and the code read right behind them is 10 |
| `ReportBatch.CrashesExactly` | server/Message/ClientReport.cs:568-579 | HandleMessage faults if and only if some whole reports, encoded, are a prefix of the buffer shorter than bufferSize, code 80 is read right behind them, and the buffer ends before its structure does |
| `ReportBatch.ShortAllocationReportCrashes` | server/Message/ClientReport.cs:568-579 | the instance for a first report and the structures of the server: it faults if and only if the buffer is shorter than the header and the structure of code 80 |
| `ReportBatch.ShortLayouts` | server/Types.cs:51-131 | the strides of codes 20, 40, 50, 80 and 100 are the sequential-layout sizes of their structures |
| `ReportBatch.LongLayouts` | server/Types.cs:58-91 | the same for codes 30 and 60 |
| `ReportBatch.HandleLayout` | server/Types.cs:94-104 | the same for code 70 |
| `ReportBatch.ThreadLayout` | server/Types.cs:115-124 | the same for code 90, with the padding before its 64-bit field |
| `ImportCrypt.CryptEncryptImportsArray` | driver/crypt.c:20-45 | in place, every entry of a whole block is combined with the key of its lane and a shorter tail is left |
| `ImportCrypt.CryptFindContainingBlockForArrayIndex` | driver/crypt.c:61-91 | the backwards search is quotient and remainder, for every block size |
| `ImportCrypt.CryptDecryptImportsArrayEntry` | driver/crypt.c:93-128 | block load, key and half and lane selection give the entry's own decoding |
| `ImportCrypt.DecryptsExactly` | driver/crypt.c:13-128 | decoding an entry of an encrypted array gives the original if and only if the entry lies in a whole block |
| `ImportCrypt.RoundTrip` | driver/crypt.c:13-128 | for every array whose length is a multiple of four every entry comes back |
| `ImportCrypt.KeyLanes` | driver/crypt.c:8-18 | the keys are set from the highest lane down |
| `ImportCrypt.ImpResolveNtImport` | driver/imports.c:33-90 | image base plus listed offset, modulo 2^64, of the first export with that name through the ordinal table, NULL if there is none |
| `ImportCrypt.ResolvesOnce` | driver/imports.c:77-87 | a name has one address only |
| `ImportCrypt.ImpResolveDynamicImports` | driver/imports.c:182-198 | on success every index below 79 decodes to its name's address and the padding entry to itself; on failure the table is plain text up to the first name that does not resolve |
| `ThreadPool.JobQueue.Push` | module/dispatcher/threadpool.cpp:57-62 | the section under the mutex is the machine's queueing step |
| `ThreadPool.JobQueue.Take` | module/dispatcher/threadpool.cpp:7-41 | the section under the mutex is the machine's testing step: the worker blocks, exits or leaves with the job the machine dequeues |
| `ThreadPool.JobQueue.Terminate` | module/dispatcher/threadpool.cpp:67-71 | the section under the mutex is the machine's flag step |
| `ThreadPool.TesterTakesOldestJob` | module/dispatcher/threadpool.cpp:31-40 | in every reachable state a worker that tests waits if and only if all submitted jobs are dequeued and the flag is not set, exits if and only if it is, and otherwise gets the oldest job nobody has taken |
| `ThreadPool.JobsRunOnceInOrder` | module/dispatcher/threadpool.cpp:7-81 | in every interleaving dequeued jobs followed by pending ones are the submitted ones in order, each dequeued job runs or has returned once, and none is dequeued after the flag is set |
| `ThreadPool.NoLostWakeUp` | module/dispatcher/threadpool.cpp:31-64 | when a worker is blocked and none is about to test, every pending job still has its notification to come, and a set flag its broadcast |
| `ThreadPool.WorkersStay` | module/dispatcher/threadpool.cpp:7-45 | in every reachable state without the flag every worker is still in its loop |
| `ThreadPool.PendingJobCanRun` | module/dispatcher/threadpool.cpp:7-65 | from every reachable state with a worker, a pending job and no flag, a worker can take and run the oldest pending job, without a spurious wake-up |
| `ThreadPool.TerminateReachesEveryWorker` | module/dispatcher/threadpool.cpp:67-81 | after the broadcast no worker is blocked and every worker that tests exits |
| `TimerRegistry.Timer.constructor` | module/dispatcher/timer.cpp:6-11 | an empty registry |
| `TimerRegistry.Timer.FindFreeHandle` | module/dispatcher/timer.cpp:63-69 | the first free entry is right behind the valid handles |
| `TimerRegistry.Timer.InsertCallback` | module/dispatcher/timer.cpp:34-60 | adds the timer to array, map and counter as the registry's step does; the three stay in agreement if and only if creation succeeds or the array is full |
| `TimerRegistry.Timer.CloseHandleEntry` | module/dispatcher/timer.cpp:82-95 | removes the timer from array and map as the registry's step does, closes its handle once and keeps the valid handles in front |
| `TimerRegistry.Timer.QueryRemovalQueue` | module/dispatcher/timer.cpp:106-115 | every queued timer is removed, and the counter is the number of timers afterwards if and only if the queue was empty |
| `TimerRegistry.Timer.DispatchCallbackForIndex` | module/dispatcher/timer.cpp:97-103 | an index of a valid handle always finds its callback, one behind them is ignored, one outside the array reads past its end |
| `TimerRegistry.SortedPermutes` | module/dispatcher/timer.cpp:88-90 | sorting orders the handles and keeps how often each occurs |
| `TimerRegistry.RegistryOverRuns` | module/dispatcher/timer.cpp:6-95 | over every run of successful inserts and closes the valid handles are the first active_callbacks entries, without duplicates, and are the map's keys |
| `NmiSection.DriverConfig.IsNmiInProgress` | driver/driver.c:132-141 | takes the flag if it is free and otherwise leaves it |
| `NmiSection.DriverConfig.UnsetNmiInProgressFlag` | driver/driver.c:126-130 | gives the flag back |
| `NmiSection.DriverConfig.HandleNmiIOCTL` | driver/modules.c:982-1060 | every path leaves the flag as it was and releases once each resource it acquired and no other, in the order of the machine's path |
| `NmiSection.NmiSectionIsExclusive` | driver/modules.c:982-1060 | in every interleaving nmi_status is the number of callers inside, zero or one, and everything acquired is held or released once |
| `NmiSection.EveryCallerLeaves` | driver/modules.c:982-1060 | every admitted caller gets out: each of its steps is possible and brings it closer, and the last one takes it outside |
| `NmiSection.DanglingExactly` | driver/modules.c:1055-1058 | the callback is registered on a freed context at exactly one point, between the last two releases of the successful path |
| `NmiSection.DanglingIsReached` | driver/modules.c:1039-1058 | a run that reaches this point |
| `NmiSection.DanglesOnlyOnSuccess` | driver/modules.c:1006-1058 | a call can leave the callback on a freed context if and only if all its steps succeed |

## Left out

- The APC protocol has one allocating and one querying thread, as the comment at driver/apc.c:94-120 assumes; two allocating threads could both pass the check for an operation in progress.
- Between queueing and finishing an APC the driver also writes the thread's list entry (driver/modules.c:1159-1160); the lifetime of that entry is not modelled.
- ReferenceLedger.NotifyRoutine: takes a whole notification as one step; NotifyProtocol splits it at its lock boundaries.
- NotifyProtocol.LedgerInEveryInterleaving: is stated for runs in which no entry is taken twice, by two deletions or by a deletion and the drain; ConflictBreaksBalance says what follows otherwise. That a deletion then also reads a freed node is not modelled.
- The cancel-safe queue is taken at its documented contract; the I/O manager's IoCsq routines and the unused argument of IrpQueuePeekNextEntry are not modelled.
- thread_pool::busy_wait depends on the mutex library and is left out.
- std::sort is modelled by an insertion sort on values whose result is stored back into the array.
- The signature scan inside a page and ValidateIfAddressIsProcessStructure are heuristics, here an oracle that yields the candidates of a page.
- DrvUnloadFreeAllApcContextStructures and IrpQueueFreeDeferredReports do not free what they name, so nothing is proved of them.
- DeviceControl's other requests, the shared mapping, hypervisor and hardware checks, handle stripping, HAL dispatch checks and the wrappers in driver/imports.c are calls into the system with little logic of their own.
- Entity classes, sockets, pipes, logging and the service are input and output; database inserts are rows of a log.
- IRQL, paging attributes, pool tags and the inside of lookaside lists are not modelled.
- The 79 import names and the index constants of driver/imports.h are a parameter, not a list.
- PageTranslation.WalkMatchesArchitecture: is stated for a CR3 and for PDEs and PTEs that fit the declared fields; otherwise Cr3FieldExact and TranslationsAgreeExactly say when a single translation still agrees. The tables are taken not to change during the walk.
- IrpQueue.OrderOverRuns: excludes insertions too small for the oldest deferred report; OvertakingIsReached shows what follows one.
