# FastROS kernel: a Dafny model of its data structures and protocols

FastROS is a kernel for one CPU on which kernel code is not preempted, so whatever a task does between two points where it may sleep is one atomic step. This project models the parts of it whose correctness is an argument about state rather than about hardware, and proves what those parts are for. `dafny verify dfyconfig.toml` checks all of it.

Two kinds of code stand side by side. Where the kernel changes things in place there is a class with the same fields, and its methods and loops are proved equal to a function of the old state. Where the point is what all callers together can rely on, that function is the step of a state machine, and the lemmas are about every step and every run.

| part | files | main results |
|---|---|---|
| User memory | `UserMemory*.dfy`, `PageLoops.dfy`, `ForkAnswers.dfy`, `AddressSpaces.dfy` | copy-on-write, sharing and swapping are invisible to programs, with faults and evictions that sleep half way; `StepExact` says exactly when; a fault is served or fails for a reason its caller can see, and one that nobody disturbs brings back what was evicted; isolation, conservation of frames and slots |
| Regions | `Regions.dfy`, `RegionAnswers.dfy` | cutting and placing mappings keeps the meaning of every other page, exactly when; which requests succeed |
| Swap slots, boot ranges | `SwapSlots.dfy`, `ReservedRanges.dfy` | the bitmap as a set of slots; exact difference of intervals in a fixed array |
| Block cache | `BlockCache.dfy` | the cache is a flat disk, also while the device fails, and on a healthy device every request on it succeeds |
| Scheduler | `RunQueue*.dfy`, `Scheduler.dfy` | the queue invariant over every step, what each step does to every task, bounded waiting, no lost sleeper |
| vmalloc | `Vmalloc.dfy`, `VmallocArea.dfy` | partition and canonical form, completeness of first fit, guards |
| Mounts and paths | `Mounts.dfy`, `Paths.dfy`, `PathNames.dfy`, `PathSteps.dfy`, `PathWalker.dfy` | confinement and termination of walks, where each component leads, path round trips |
| Signals | `UserBytes.dfy`, `SignalFrames.dfy`, `SignalNest.dfy`, `SignalRuns.dfy`, `SignalDelivery.dfy` | nested frames are disjoint and unwind to the interrupted context |
| Pipes | `Pipes.dfy`, `PipeCalls.dfy`, `PipeEnds.dfy` | the stream law for any interleaving of readers and writers, and how each call comes out |
| tmpfs | `TmpfsFiles.dfy`, `TmpfsLinks.dfy` | sparse pages are a byte string, quota accounting, link counts |
| Overlay | `Overlays.dfy`, `OverlayTree.dfy`, `OverlayRuns.dfy` | over any run, what is read is what a private copy of the lower file would hold |
| Initial stack | `InitialStack.dfy` | a program reads back what was put there |
| HTTP body reader | `HttpReader.dfy`, `HttpMessages.dfy` | the response does not depend on how the stream was cut, and a response is read back whole |
| Calendar | `Civil.dfy` | days and dates are in bijection |

The kernel is built with overflow checks, so arithmetic that does not fit panics and never wraps. Integers are therefore unbounded here. For signal frames an address that does not fit is an outcome of its own. I/O answers, free frames, free slots, page-table memory and arriving signals are parameters.

Some properties one would expect do not hold of the code. For each of them the model keeps the code as it is and gives the condition under which the property holds:

- A step of user memory has the effect programs expect exactly under `UserMemory.Scoped`. Faults and evictions sleep while they read or write a page, and what they find afterwards need not be what they left. A fault is fine whatever other tasks do in the meantime, as long as they do not unmap or re-protect its page or end another fault on it, and its frame is not one that an eviction of that page still names (`StepKeepsCurrent`, `FaultBringsBack`, `CalmRunScoped`). What goes wrong otherwise, each with a run from boot: a page made writable that an earlier fork shared read-only (`ProtectLeaks`, `ProtectLeakReachable`), a kernel copy to a page that is being swapped out (`KernelCopyLost`, `KernelCopyLostReachable`), a page staged twice (`StagedTwiceReachable`), a frame that returns to a page whose eviction with it is still under way (`StaleCommitShows`, `StaleCommitReachable`, `JoinRaceReachable`, `WriteRaceReachable`), and two faults on one swapped page (`SwapInRaceReachable`). Besides these the condition rules out a mapping that fails while a reference is held and a swap-in that fails during fork.
- `unmap` and `protect` keep the meaning of a page exactly when it is not the tail of a cut shared region (`SplitExact`, `SharedTailMoves`). `protect` of an empty range can leave an empty region that later refuses mappings (`CutEmpty`, `EmptyRegionBlocks`). `brk` keeps regions disjoint exactly when its extension runs into nothing (`BrkExact`, `BrkOverlaps`), and the pages it adds are zero exactly when the region it extends has no file or shared object that reaches into them (`BrkMeaning`).
- `vmalloc` loses the one frame for which it could not get a page table (`Allocate`, `LosesOne`), so with everything freed those frames, and no others, are still out (`AllFreed`).
- After `chroot` a process sees only what is under the new root exactly when that root is on the chain of the working directory it leaves alone, or it may no longer search that directory (`ChrootExact`, `ChrootEscapes`).
- The absolute path that the kernel reports names a node from the top of the tree. Where no link is met, a process gets back to a node by it exactly when its root is the top; from any other root it takes a link (`RoundTripExact`, `ChrootPathLost`, `LinkLeadsHome`).
- `mount` does not check that the mount it stacks on is still there. The new mount hangs off one in the table exactly when it is (`Mounts.MountTable.Attach`).
- Delivering a signal panics the kernel exactly when the end of the alternate stack does not fit and `rsp` is not below its start or the action asks for it, or when the stack top is between 128 and 1295 (`OverflowExact`). An alternate stack over nearly the whole address space is accepted, and then every caught signal does (`WideAltOverflows`).
- A tmpfs write that runs out of space leaves bytes behind the end of the file, which show up later exactly when they are not zero; which ones follows from the limit and the pages there are (`StopPageIs`, `FailedWriteTail`, `FailedWriteShows`).
- A copy-up that fails half way makes every later copy-up of that node fail (`OverlayTree.Overlay.CopyUp`).
- The documentation of `resolve_parent` says its last name is never `.` or `..`. The code returns it (`ParentOfDots`), and the model follows the code.

## Model

| member | source | states |
|---|---|---|
| UserMemoryProofs.SoleMapper | kernel/src/mm/aspace.rs:676-684 | a count of one really means that nobody else maps or holds the frame, which is what lets a copy-on-write fault keep it |
| UserMemoryProofs.FaultKeepsInv | kernel/src/mm/aspace.rs:593-693 | the first section of a fault, copy-on-write included, keeps counts, slot ownership, exclusivity of writable pages, the validity of staged copies and the frames that sleeping faults have in hand |
| UserMemoryProofs.LoadKeepsInv | kernel/src/mm/aspace.rs:650-717 | so does the read that follows, in every state: the frame it takes is nobody else's |
| UserMemoryProofs.SettleKeepsInv | kernel/src/mm/aspace.rs:667-729 | so does mapping the page that was read, if the page still wants what the fault set out to fetch |
| UserMemoryProofs.JoinKeepsInv | kernel/src/mm/aspace.rs:617-649 | so does joining a shared object, likewise |
| UserMemoryProofs.StoreKeepsInv | kernel/src/mm/aspace.rs:787-847 | a store by the CPU keeps all of that: it sets DIRTY, so a copy being staged no longer counts as current |
| UserMemoryProofs.KernelCopyKeepsInv | kernel/src/mm/aspace.rs:522-534 | so does a kernel copy through the direct map, unless it changes a clean page whose copy is being staged |
| UserMemoryProofs.UnmapKeepsInv | kernel/src/mm/aspace.rs:404-419 | unmapping a page gives back exactly its frame reference or its slot |
| UserMemoryProofs.ProtectKeepsInv | kernel/src/mm/aspace.rs:450-469 | re-protecting keeps the invariant when it makes no page writable that another space also maps |
| UserMemoryProofs.ForkKeepsInv | kernel/src/mm/aspace.rs:880-919 | sharing a page with a child keeps the invariant: the new reference is counted and neither side can write in place |
| UserMemoryProofs.StageKeepsInv | kernel/src/mm/aspace.rs:787-812 | clearing DIRTY at the start of an eviction keeps it, unless an outdated copy of that page is in flight |
| UserMemoryProofs.WriteKeepsInv | kernel/src/mm/aspace.rs:813-818 | writing the page out takes a slot nobody owns and records a copy that is current, unless the page has meanwhile become one of a shared object in the same frame |
| UserMemoryProofs.CommitKeepsInv | kernel/src/mm/aspace.rs:819-847 | committing or abandoning an eviction moves the slot to the entry or frees it, and gives the frame back exactly once |
| UserMemoryProofs.ReleaseKeepsInv | kernel/src/mm/aspace.rs:985-1009 | a space without entries can go and leaves nothing dangling |
| UserMemoryProofs.DropKeyKeepsInv | kernel/src/mm/aspace.rs:95-102 | an object that goes away gives its frame references back |
| UserMemoryProofs.NextKeepsInv | kernel/src/mm/aspace.rs:593-1009 | every step within its condition keeps the whole invariant |
| UserMemoryRefinement.FaultSilent | kernel/src/mm/aspace.rs:593-693 | the first section of any page fault changes nothing that a program can see |
| UserMemoryRefinement.LoadSilent | kernel/src/mm/aspace.rs:650-717 | neither does the read, in every state |
| UserMemoryRefinement.SettleSilent | kernel/src/mm/aspace.rs:667-729 | nor mapping what was read, if that is still the page; `StepKeepsCurrent` and `SettleCurrent` say that it is |
| UserMemoryRefinement.JoinSilent | kernel/src/mm/aspace.rs:617-649 | nor joining a shared object or making it |
| UserMemoryRefinement.StageSilent | kernel/src/mm/aspace.rs:787-812 | neither does starting an eviction |
| UserMemoryRefinement.WriteSilent | kernel/src/mm/aspace.rs:813-818 | nor writing the page to its slot |
| UserMemoryRefinement.CommitSilent | kernel/src/mm/aspace.rs:819-847 | nor finishing one |
| UserMemoryRefinement.WritesRefine | kernel/src/mm/aspace.rs:522-534 | a store or kernel copy changes exactly its bytes of its own page, or of the shared page for all its mappers |
| UserMemoryRefinement.ForkView | kernel/src/mm/aspace.rs:880-919 | forking a page gives the child the parent's contents and changes no other page |
| UserMemoryRefinement.UnmapView | kernel/src/mm/aspace.rs:404-419 | unmapping takes away that page and no other contents |
| UserMemoryRefinement.ProtectView | kernel/src/mm/aspace.rs:450-469 | changing protection changes no contents |
| UserMemoryRefinement.ReleaseView | kernel/src/mm/aspace.rs:985-1009 | the end of a space is seen by no other space |
| UserMemoryRefinement.NextRefines | kernel/src/mm/aspace.rs:593-1009 | every step within its condition acts on plain private and shared pages as programs expect |
| UserMemoryExact.FaultNecessary | kernel/src/mm/aspace.rs:593-693 | outside its condition the first section of a fault breaks the invariant (a stale eviction that could commit) |
| UserMemoryExact.SettleNecessary | kernel/src/mm/aspace.rs:667-729 | outside its condition the end of a fault leaks a frame, doubles or orphans a slot, arms a stale eviction or changes what the program sees |
| UserMemoryExact.JoinNecessary | kernel/src/mm/aspace.rs:617-649 | outside its condition joining a shared object leaks a reference, orphans a slot or maps a page that is no longer shared |
| UserMemoryExact.KernelCopyNecessary | kernel/src/mm/aspace.rs:522-534 | outside its condition a kernel copy leaves a staged copy that is out of date and would still commit |
| UserMemoryExact.StageNecessary | kernel/src/mm/aspace.rs:787-812 | so does staging a page again while an older, outdated copy is in flight |
| UserMemoryExact.WriteNecessary | kernel/src/mm/aspace.rs:813-818 | and writing out a frame whose page has become shared, where the eviction would swap it out for one space alone |
| UserMemoryExact.ProtectNecessary | kernel/src/mm/aspace.rs:450-469 | outside its condition re-protecting leaves a writable page that another space maps |
| UserMemoryExact.ForkNecessary | kernel/src/mm/aspace.rs:880-919 | outside its condition fork leaks a reference or gives the child other contents than the parent's |
| UserMemoryExact.ReleaseNecessary | kernel/src/mm/aspace.rs:985-1009 | a space released with entries left leaks what they refer to |
| UserMemoryExact.StepExact | kernel/src/mm/aspace.rs:593-1009 | a step keeps the invariant and has exactly the effect programs expect if and only if its condition holds beforehand |
| UserMemoryRuns.RunRefines | kernel/src/mm/aspace.rs:593-1009 | over whole runs within their conditions paging, copy-on-write, counting and swapping are invisible |
| UserMemoryRuns.Isolation | kernel/src/mm/aspace.rs:880-919 | whatever forks, faults, stores, evictions, unmaps and releases any space performs, a private page keeps its contents until its own space writes or unmaps it |
| UserMemoryRuns.SharedIsCommon | kernel/src/mm/aspace.rs:617-649 | two mappings of one page of a shared object are the same memory |
| UserMemoryRuns.LoadSeesView | kernel/src/mm/aspace.rs:551-573 | what a load through a present entry reads is what the abstract memory holds, also after eviction and swap-in |
| UserMemoryRuns.Conservation | kernel/src/mm/frame.rs:182-201 | in every reachable state a frame is out of the allocator exactly while something refers to it: its count is the number of entries and objects that do, or exactly one sleeping fault has it in hand |
| UserMemoryRuns.SlotConservation | kernel/src/mm/swap.rs:85-153 | in every reachable state a slot in use has exactly one owner, a swapped entry or an eviction in flight, and a free slot none |
| UserMemoryRuns.StoreAborts | kernel/src/mm/aspace.rs:819-838 | a store while the page is being staged makes the commit give up, and the page holds what was stored |
| UserMemoryRuns.BootInv | kernel/src/mm/aspace.rs:166-182 | the invariant holds before the first space exists |
| UserMemoryRuns.NothingLeft | kernel/src/mm/aspace.rs:985-1009 | once every entry and object is gone no frame and no slot is in use |
| UserMemoryRuns.ProtectLeaks | kernel/src/mm/aspace.rs:450-469 | whenever the protect condition fails, the next differing store is seen by another space |
| UserMemoryRuns.StaleCommitShows | kernel/src/mm/aspace.rs:819-847 | committing an outdated copy replaces the page by it |
| UserMemoryRuns.KernelCopyLost | kernel/src/mm/aspace.rs:522-534 | bytes copied in by the kernel while the page is being staged are lost when the eviction commits |
| UserMemoryRaces.ProtectLeakReachable | kernel/src/mm/aspace.rs:450-469 | a run from boot in which a child sees a store of its parent: map read-only, fault in, fork, make writable, store |
| UserMemoryRaces.KernelCopyLostReachable | kernel/src/mm/aspace.rs:522-534 | a run from boot in which a byte the kernel copied in is gone after the page was swapped out |
| UserMemoryRaces.StaleCommitReachable | kernel/src/mm/aspace.rs:819-847 | a run from boot in which a page is unmapped, mapped again from a file into the same frame and then replaced by its old contents |
| UserMemoryRaces.SwapInRaceReachable | kernel/src/mm/aspace.rs:699-729 | a run from boot in which two threads fault on one swapped page, a store is lost and a slot stays in use that nobody owns |
| UserMemoryReuse.StagedTwiceReachable | kernel/src/mm/aspace.rs:787-838 | a run from boot in which a page is stored to while it is staged, a second eviction of it begins, and the first one commits the old copy |
| UserMemoryReuse.JoinRaceReachable | kernel/src/mm/aspace.rs:617-649 | a run from boot in which a staged page becomes one of a shared object in the same frame and is swapped out for one space alone |
| UserMemoryReuse.WriteRaceReachable | kernel/src/mm/aspace.rs:813-838 | likewise when the eviction slept before it copied the page |
| UserMemoryFaults.StartCurrent | kernel/src/mm/aspace.rs:593-606 | a fault on a page that its region allows and that has no frame begins, and begins current: its page is as it found it |
| UserMemoryFaults.LoadCurrent | kernel/src/mm/aspace.rs:650-717 | the read of a current fault brings in the page, if the frame and the device are there and no eviction of that page still knows the frame |
| UserMemoryFaults.StepKeepsCurrent | kernel/src/mm/aspace.rs:593-1009 | every step of any other task leaves a fault current, with the same page, unless it unmaps or re-protects that page or ends another fault on it |
| UserMemoryFaults.SettleCurrent | kernel/src/mm/aspace.rs:667-729 | a current fault that has read its page is within its condition exactly when the page table takes the entry; a load then sees the page, and a store gets through if the region may be written |
| UserMemoryFaults.JoinCurrent | kernel/src/mm/aspace.rs:617-649 | one on a shared page exactly when besides no eviction of that page with the object's frame is in flight |
| UserMemoryFaults.JoinMaps | kernel/src/mm/aspace.rs:617-649 | the page is then mapped to the frame of the object, a zeroed one if it had none |
| UserMemoryFaults.RunKeepsCurrent | kernel/src/mm/aspace.rs:593-1009 | a fault stays current over any run that does not disturb it |
| UserMemoryFaults.FaultBringsBack | kernel/src/mm/aspace.rs:593-729 | a fault on a private page, with any such runs in both its sleeps, ends well, a load sees what the page held when it began, and the page is writable exactly when its region is |
| UserMemoryFaults.EvictedComesBack | kernel/src/mm/aspace.rs:699-847 | a page that is evicted and faulted back, with any run in between that does not write or unmap it, holds what it held before |
| UserMemoryFaults.CalmKeeps | kernel/src/mm/aspace.rs:593-1009 | where no fault is disturbed, every step is within its condition and all faults stay current |
| UserMemoryFaults.CalmRunScoped | kernel/src/mm/aspace.rs:593-1009 | so over runs, from boot: paging and swapping are then invisible, with nothing asked about what faults have read |
| UserMemoryFaults.CalmIsolation | kernel/src/mm/aspace.rs:880-919 | and a private page keeps its contents until its own space writes or unmaps it |
| UserMemorySteps.FaultServes | kernel/src/mm/aspace.rs:593-693 | a permitted fault on a page with a frame is served at once: the contents are the same, and after a write fault the page is writable and no longer copy-on-write; only a write to a page that others hold too, with no frame at hand, changes nothing |
| UserMemorySteps.CopyLeaves | kernel/src/mm/aspace.rs:685-690 | a write fault on a frame with other holders moves to a copy and leaves the old frame, its contents and everybody else's entries, with one reference less |
| UserMemorySteps.FaultBegins | kernel/src/mm/aspace.rs:593-606 | a permitted fault on an absent or swapped page waits for exactly that page and slot, and changes nothing else |
| UserMemorySteps.FaultRefused | kernel/src/mm/aspace.rs:567-573 | a fault outside every region, or a write that its region forbids, changes nothing |
| UserMemorySteps.FaultThenStore | kernel/src/mm/aspace.rs:593-693 | so after a write fault the next store changes exactly its byte of that page, as programs see it |
| UserMemorySteps.SettledTakesStore | kernel/src/mm/aspace.rs:667-729 | and so it does after a write fault that had to wait |
| UserMemorySteps.LoadGivesUp | kernel/src/mm/aspace.rs:650-717 | a fault that gets no frame, or whose read from swap fails, is over and has changed nothing |
| UserMemorySteps.CopyLands | kernel/src/mm/aspace.rs:522-534 | a kernel copy into a page with a frame of its own in a writable region always lands, and changes nothing but those bytes of that frame |
| UserMemorySteps.CopySeen | kernel/src/mm/aspace.rs:522-534 | and programs see it in that page and no other, if no copy of it is being staged |
| UserMemorySteps.FaultThenCopy | kernel/src/mm/aspace.rs:522-534 | a chunk of a write by the kernel, fault included, writes exactly its bytes |
| UserMemorySteps.ForkShares | kernel/src/mm/aspace.rs:880-919 | a forked page has the same entry on both sides and one reference more; a private page that could be written is read-only and copy-on-write on both |
| UserMemorySteps.SecondChance | kernel/src/mm/aspace.rs:787-806 | a page used since the last pass loses its ACCESSED bit and nothing else |
| UserMemorySteps.StageRefused | kernel/src/mm/aspace.rs:787-806 | a page that is copy-on-write, or whose frame has other holders, is not evicted |
| UserMemorySteps.StageNotes | kernel/src/mm/aspace.rs:787-812 | any other page is noted for eviction with its frame, its DIRTY bit cleared |
| UserMemorySteps.StoreCopies | kernel/src/mm/swap.rs:138-153 | a noted page is copied to its free slot and then in flight, or without one the eviction is over |
| UserMemorySteps.CommitDecides | kernel/src/mm/aspace.rs:819-847 | the commit takes place exactly when it is charged and the page is still in the same frame and unwritten; otherwise the slot is free again and no table or count has changed |
| UserMemorySteps.Evicts | kernel/src/mm/aspace.rs:787-847 | so an eviction that nothing comes in between of ends with the contents in the slot, the entry swapped and the frame given back |
| UserMemorySteps.ReleaseEnds | kernel/src/mm/aspace.rs:985-1009 | a space that no fault or eviction is at work in ends, and every other space keeps its entries |
| UserMemorySteps.DropEnds | kernel/src/mm/aspace.rs:95-102 | an object that nothing maps gives up its page and one reference to its frame |
| PageLoops.UnmapIsRun | kernel/src/mm/aspace.rs:404-419 | the page loop of unmap is a run of steps that are always within their condition |
| PageLoops.UnmapPagesExact | kernel/src/mm/aspace.rs:404-419 | after the loop exactly the entries and region pages of the range are gone |
| PageLoops.ProtectPagesExact | kernel/src/mm/aspace.rs:450-469 | after the loop of protect exactly the pages of the range have the new protection, a copy-on-write entry staying read-only, and nothing else has changed |
| PageLoops.ProtectIsRun | kernel/src/mm/aspace.rs:450-469 | that loop is a run of steps, within their conditions exactly when it makes no private page writable whose frame has another reference |
| PageLoops.PageIsRun | kernel/src/mm/aspace.rs:884-915 | one page of fork within its condition, swap-in included, is a run of steps with the effect of one fork step |
| PageLoops.StopUnscoped | kernel/src/mm/aspace.rs:905-910 | a page at which fork gives up is one outside the condition: it has a reference too many |
| PageLoops.LastReference | kernel/src/mm/frame.rs:189-201 | giving up a mapping frees the frame exactly when no other entry and no object refers to it; else one reference less is counted |
| PageLoops.ForkCopies | kernel/src/mm/aspace.rs:880-919 | a whole fork within its condition is a run of steps and gets to the end; each page of the child is the parent's page of that moment, and no other page, the parent's included, has changed |
| ForkAnswers.SwapInExact | kernel/src/mm/aspace.rs:699-729 | an undisturbed swap-in is within its conditions exactly when, once it has a frame and has read the slot, the mapping works and no outdated eviction of the page names that frame |
| ForkAnswers.PageScoped | kernel/src/mm/aspace.rs:884-915 | one page of fork is within its conditions if it gets its answers: a page table for a page that is there, a frame and a read besides for a swapped one |
| ForkAnswers.ForkInScope | kernel/src/mm/aspace.rs:880-919 | so is a whole fork whose pages get them, with different frames, all judged by the state in which it begins |
| ForkAnswers.ForkWhole | kernel/src/mm/aspace.rs:880-919 | and it then gets to the end and gives the child the parent's pages |
| PageLoops.DropExact | kernel/src/mm/aspace.rs:985-1009 | dropping a space removes its pages and no page of any other space |
| AddressSpaces.Memory.constructor | kernel/src/mm/aspace.rs:166-182 | boot state, in which the invariant holds |
| AddressSpaces.Memory.FaultIn | kernel/src/mm/aspace.rs:593-611 | resolves a fault up to where it may sleep as the machine's step does; EFAULT exactly without a region or permission, ENOMEM exactly for a write to a page others hold too with no frame, a wait exactly without a frame, and otherwise the page is served |
| AddressSpaces.Memory.LoadPage | kernel/src/mm/aspace.rs:650-717 | reads the slot or the file into a new frame that is not mapped yet, or gives up and leaves everything |
| AddressSpaces.Memory.FinishFault | kernel/src/mm/aspace.rs:667-729 | maps that frame and frees the slot, or, when the entry is present by now or there is no page table, leaves both behind |
| AddressSpaces.Memory.JoinObject | kernel/src/mm/aspace.rs:617-649 | maps the frame of the shared object, creating it for the first mapper; says exactly when it fails |
| AddressSpaces.Memory.DoCow | kernel/src/mm/aspace.rs:676-693 | keeps the frame when it is alone, else copies it and gives its reference back: afterwards the page is writable, not copy-on-write and holds what it held; ENOMEM exactly when a copy is needed and there is no frame |
| AddressSpaces.Memory.SwapIn | kernel/src/mm/aspace.rs:699-729 | an undisturbed swap-in is its three sections in a row |
| AddressSpaces.Memory.Unmap | kernel/src/mm/aspace.rs:404-423 | the page loop ends in the state of its steps and keeps the invariant |
| AddressSpaces.Memory.UnmapOne | kernel/src/mm/aspace.rs:407-416 | frees the slot or the frame reference of one page |
| AddressSpaces.Memory.Protect | kernel/src/mm/aspace.rs:450-471 | the page loop ends in the state that `ProtectPagesExact` and `ProtectIsRun` are about |
| AddressSpaces.Memory.ForkOne | kernel/src/mm/aspace.rs:884-915 | swaps the parent's page in if need be, then shares it; gives up exactly when a present page cannot be mapped |
| AddressSpaces.Memory.SharePage | kernel/src/mm/aspace.rs:894-909 | a private writable entry turns read-only and copy-on-write on both sides, with one reference more |
| AddressSpaces.Memory.Fork | kernel/src/mm/aspace.rs:880-919 | the page loop ends in the state of its pages up to the first that cannot be mapped |
| AddressSpaces.Memory.Drop | kernel/src/mm/aspace.rs:985-1009 | unmaps every page of the space and then ends it |
| AddressSpaces.Memory.EvictBegin | kernel/src/mm/aspace.rs:787-812 | second chance, or DIRTY cleared and the page to be stored, which it is exactly if it is alone in its frame and forced or not accessed |
| AddressSpaces.Memory.StorePage | kernel/src/mm/swap.rs:138-153 | the page goes to a free slot and the eviction is in flight, exactly when there is a slot |
| AddressSpaces.Memory.EvictFinish | kernel/src/mm/aspace.rs:819-847 | swaps the entry out exactly when it is charged and nothing wrote or moved the page, else frees the slot and leaves the tables alone |
| Regions.SplitExact | kernel/src/mm/aspace.rs:386-448 | after unmap or protect a page is gone, re-protected or as before, with the same file offset, zero tail or shared page, if and only if it is not the tail of a cut shared region |
| Regions.SharedTailMoves | kernel/src/mm/aspace.rs:386-402 | three shared pages with the middle one unmapped: the last is then looked up as the first |
| Regions.CutKeepsShape | kernel/src/mm/aspace.rs:386-448 | unmap and protect keep regions aligned and pairwise disjoint |
| Regions.CutEmpty | kernel/src/mm/aspace.rs:426-448 | no empty region appears, if and only if the range is not an empty one inside a region being re-protected |
| Regions.OverlapExact | kernel/src/mm/aspace.rs:245-249 | a range is refused exactly when one of its pages is mapped |
| Regions.EmptyRegionBlocks | kernel/src/mm/aspace.rs:245-249 | with an empty region left over, a range is refused in which nothing is mapped |
| Regions.ReserveExact | kernel/src/mm/aspace.rs:251-262 | a new region adds exactly its pages and changes no other |
| Regions.GrowExact | kernel/src/mm/aspace.rs:867-877 | stack growth gives the pages down to the fault to the stack and moves nothing else |
| Regions.BrkExact | kernel/src/mm/aspace.rs:929-954 | moving the break keeps regions aligned and non-empty, and disjoint if and only if the extension collides with nothing |
| Regions.BrkOverlaps | kernel/src/mm/aspace.rs:939-941 | a heap with a mapping right above it overlaps that mapping after growing by one page |
| Regions.BrkMeaning | kernel/src/mm/aspace.rs:929-954 | away from a collision, moving the break down removes its pages and changes no other, exactly when it cuts no shared region; moving it up changes no page there is and adds pages that are zero exactly when no file or shared object of the extended region reaches them |
| Regions.MmapExact | kernel/src/mm/aspace.rs:325-364 | the range returned means the new mapping, and every other page what it meant before, but for what a fixed mapping replaces |
| RegionAnswers.ReserveAnswers | kernel/src/mm/aspace.rs:245-262 | a range can be had exactly when it is in user space and none of its pages is mapped; the error says which of the two it is |
| RegionAnswers.GrowAnswers | kernel/src/mm/aspace.rs:867-877 | the first stack at most 64 pages above a fault grows down to it exactly when no page in between is mapped |
| RegionAnswers.BrkAnswers | kernel/src/mm/aspace.rs:929-954 | where the break ends up for every request, and that a break that stays changes no region |
| RegionAnswers.FixedAnswers | kernel/src/mm/aspace.rs:325-346 | a fixed mapping takes its place exactly when that is in user space, whatever was there |
| RegionAnswers.FloatingAnswers | kernel/src/mm/aspace.rs:325-364 | any other goes to its hint if that is free and in user space, else right below the last one, and a failure changes nothing |
| Regions.AddressSpace.constructor | kernel/src/mm/aspace.rs:166-182 | no region, and the search starts at the top |
| Regions.AddressSpace.Map | kernel/src/mm/aspace.rs:251-262 | reserves the aligned range or refuses it with the error of the first failing check, keeping regions aligned and disjoint |
| Regions.AddressSpace.Unmap | kernel/src/mm/aspace.rs:386-402 | the region loop is the cut of every region by the aligned range |
| Regions.AddressSpace.Reprotect | kernel/src/mm/aspace.rs:432-448 | so is the loop of protect, the middle piece re-protected |
| Regions.AddressSpace.Protect | kernel/src/mm/aspace.rs:426-448 | refused with ENOMEM exactly when no single region covers the range |
| Regions.AddressSpace.Mmap | kernel/src/mm/aspace.rs:325-364 | the hint, then a range below the last one, or the fixed place, with the search position it leaves |
| Regions.AddressSpace.TryGrowStack | kernel/src/mm/aspace.rs:867-877 | grows the first stack in reach and says whether there was one |
| Regions.AddressSpace.Brk | kernel/src/mm/aspace.rs:929-954 | new regions and new break for every request, answered with the break |
| SwapSlots.WithBitInUse | kernel/src/mm/swap.rs:85-116 | setting or clearing a bit of a word adds or removes exactly that slot |
| SwapSlots.FreeUndoesAlloc | kernel/src/mm/swap.rs:105-116 | freeing what was allocated restores the bitmap |
| SwapSlots.SwapMap.constructor | kernel/src/mm/swap.rs:65-80 | all slots of the device are free |
| SwapSlots.SwapMap.AllocSlot | kernel/src/mm/swap.rs:85-102 | the lowest free slot, or none exactly when every slot of the device is in use |
| SwapSlots.SwapMap.FreeSlot | kernel/src/mm/swap.rs:105-116 | the slot is free afterwards and no other slot changes; freeing a free slot does nothing |
| ReservedRanges.CutAllCoverage | kernel/src/mm/frame.rs:41-58 | cutting a range out of all pieces leaves exactly the addresses outside it |
| ReservedRanges.CutAllSeparate | kernel/src/mm/frame.rs:41-58 | and separate pieces stay separate |
| ReservedRanges.CutAllGrowth | kernel/src/mm/frame.rs:41-58 | one cut adds at most one piece, so the fixed array is large enough |
| ReservedRanges.Subtract | kernel/src/mm/frame.rs:35-66 | hands out exactly the addresses of the range that no reservation covers, in separate non-empty ranges, and never overruns its arrays |
| ReservedRanges.CutPieces | kernel/src/mm/frame.rs:41-58 | one pass fills the next array with what the reservation leaves |
| BlockCache.Cache.constructor | kernel/src/fs/bcache.rs:50-53 | an empty cache shows the device |
| BlockCache.Cache.SortedDirty | kernel/src/fs/bcache.rs:160 | the dirty pages, each once, ascending |
| BlockCache.Cache.RunLength | kernel/src/fs/bcache.rs:163-167 | the longest run of consecutive pages that one command takes |
| BlockCache.Cache.WriteRun | kernel/src/fs/bcache.rs:168-178 | one command, successful or not, never changes what the cache shows; on success exactly its pages turn clean; on a healthy device it succeeds if its pages are on it |
| BlockCache.Cache.Writeback | kernel/src/fs/bcache.rs:159-183 | whatever the device answers the view stays; on success no page is dirty; it succeeds on a healthy device with no cached page past its end |
| BlockCache.EvictOne | kernel/src/fs/bcache.rs:111-116 | taking the oldest clean page next keeps evicted pages no younger than the clean pages that stay |
| BlockCache.Cache.EvictMany | kernel/src/fs/bcache.rs:111-116 | exactly as many of the oldest clean pages go as are asked for |
| BlockCache.Cache.MakeRoom | kernel/src/fs/bcache.rs:103-118 | the view stays, only clean pages go, oldest first and no more than needed, and on success there is room; nothing happens if there is already, and on a healthy device it succeeds |
| BlockCache.Cache.Load | kernel/src/fs/bcache.rs:69-93 | a page is brought in with its read-ahead without changing the view, also when the device fails; a cached page is always a success that asks nothing of the device, and on a healthy one a load succeeds exactly for pages on it |
| BlockCache.Cache.Fetch | kernel/src/fs/bcache.rs:74-92 | what was cached stays as it was, the page is new and clean, and what was read ahead is clean and aged |
| BlockCache.Cache.AheadOf | kernel/src/fs/bcache.rs:80-83 | read-ahead takes only uncached pages, stays on the device and stops only at a cached page, the end or 32 pages |
| BlockCache.Cache.LoadBlank | kernel/src/fs/bcache.rs:69-79 | a page about to be overwritten whole is not read, and no other page changes; it succeeds if the page is cached or the device healthy |
| BlockCache.Cache.Insert | kernel/src/fs/bcache.rs:95-101 | one more clean page, counted |
| BlockCache.Cache.ReadChunk | kernel/src/fs/bcache.rs:121-133 | the bytes of the view in one page, which is then the last one to be evicted; a cached page is always read |
| BlockCache.Cache.Read | kernel/src/fs/bcache.rs:120-135 | a successful read returns the bytes of the flat disk, and reading never changes it; on a healthy device it succeeds exactly for bytes on the device |
| BlockCache.Cache.WriteChunk | kernel/src/fs/bcache.rs:138-155 | exactly the bytes of one page change, or nothing; the page is then dirty and the last one to be evicted, and a cached page always takes them |
| BlockCache.WrittenMore | kernel/src/fs/bcache.rs:137-157 | writing chunk after chunk is writing them together |
| BlockCache.Cache.Write | kernel/src/fs/bcache.rs:137-157 | the flat disk changes in exactly the accepted bytes: all on success, else those before the failing page; on a healthy device every write on it succeeds |
| BlockCache.Cache.Flush | kernel/src/fs/bcache.rs:185-188 | on success the device is the flat disk and no page is dirty; it succeeds on a healthy device with no cached page past its end |
| BlockCache.Cache.DropClean | kernel/src/fs/bcache.rs:195-199 | only dirty pages stay, and the view does not change |
| RunQueue.InvMeans | kernel/src/sched/mod.rs:519-555 | exactly the current task runs; a live published ready task is queued once; blocked, dead, running and idle tasks never are; the stack is given back exactly for tasks that exited by themselves |
| RunQueue.BootInv | kernel/src/sched/mod.rs:314-325 | the invariant holds with the idle task alone |
| RunQueue.WakeKeepsInv | kernel/src/sched/mod.rs:408-415 | waking never queues a task twice |
| RunQueue.KillKeepsInv | kernel/src/sched/mod.rs:357-368 | killing a task keeps the queue and the stacks consistent; what it does to whom is `KillEffect` |
| RunQueue.DropExitedIs | kernel/src/sched/mod.rs:542-551 | what is dropped from the head is a run of exited tasks that ends at a live one |
| RunQueue.ScheduleKeepsInv | kernel/src/sched/mod.rs:519-555 | a switch from a running, blocked or dead task ends with one running task |
| RunQueue.TickKeepsInv | kernel/src/sched/mod.rs:652-672 | so does the scan of the sleepers, stale and duplicate entries included |
| RunQueue.NextKeepsInv | kernel/src/sched/mod.rs:341-672 | every step a caller may take keeps the invariant |
| RunQueueRuns.ScheduleAdvances | kernel/src/sched/mod.rs:519-555 | one call runs a waiting task or moves it forward |
| RunQueueRuns.BoundedWaiting | kernel/src/sched/mod.rs:519-555 | a task with at most k others before it runs by the (k+1)-th call of schedule, whatever wakes, spawns, ticks and kills happen in between, unless it is killed |
| RunQueueRuns.ExitedNeverRuns | kernel/src/sched/mod.rs:357-368 | no run ever gives the CPU to a task that has exited or was killed |
| RunQueueRuns.TickExact | kernel/src/sched/mod.rs:652-672 | a tick wakes exactly the blocked tasks whose entry is due, and touches no other task |
| RunQueueRuns.TickSleepers | kernel/src/sched/mod.rs:652-672 | the entries that stay are sleeps still to come |
| RunQueueRuns.TickWakesAll | kernel/src/sched/mod.rs:652-672 | after a tick nobody is blocked on a deadline that has passed, and nobody else was woken |
| RunQueueSteps.MakeEffect | kernel/src/sched/mod.rs:341-375 | a new task is ready and in no queue until it is published, and then last in it; no other task changes |
| RunQueueSteps.WakeEffect | kernel/src/sched/mod.rs:408-415 | a wake makes a blocked task ready and last in the queue, does nothing to a task in any other state, and nothing to anybody else |
| RunQueueSteps.KillEffect | kernel/src/sched/mod.rs:357-368 | a killed task is marked and not blocked, whatever it was doing; every other task keeps its state, its mark and its place among the sleepers and in the queue |
| RunQueueSteps.KillKeepsOrder | kernel/src/sched/mod.rs:357-368 | and they keep their order in the queue |
| RunQueueSteps.KilledNeverRuns | kernel/src/sched/mod.rs:357-368 | no run ever gives the CPU to a task that has been killed |
| RunQueueSteps.ScheduleEffect | kernel/src/sched/mod.rs:519-555 | the first task of the queue that has not exited runs, or idle; the one before it, if it was running, is ready and last; no other task changes |
| RunQueueSteps.BlockEffect | kernel/src/sched/mod.rs:420-435 | blocking parks the running task, with its deadline if there is one, and leaves the CPU to the first live task of the queue |
| RunQueueSteps.ExitEffect | kernel/src/sched/mod.rs:501-517 | exiting leaves the task dead and marked, and its stack is given back |
| RunQueueSteps.TickQueues | kernel/src/sched/mod.rs:652-672 | a tick queues exactly the due tasks, behind those that wait already |
| Schedulers.Scheduler.constructor | kernel/src/sched/mod.rs:314-325 | boot state, in which the invariant holds |
| Schedulers.Scheduler.MakeTask | kernel/src/sched/mod.rs:341-349 | a new task exists but is not queued until it is published |
| Schedulers.Scheduler.MakeReady | kernel/src/sched/mod.rs:371-373 | a task is queued once, at the end |
| Schedulers.Scheduler.Wake | kernel/src/sched/mod.rs:408-415 | only a blocked task is queued; any other is left alone |
| Schedulers.Scheduler.BlockCurrent | kernel/src/sched/mod.rs:420-433 | the current task blocks, with an entry if it has a deadline, and another runs |
| Schedulers.Scheduler.YieldNow | kernel/src/sched/mod.rs:484-486 | the current task goes to the end of the queue |
| Schedulers.Scheduler.ExitCurrent | kernel/src/sched/mod.rs:501-516 | the current task is dead, its stack freed only once another runs |
| Schedulers.Scheduler.KillTask | kernel/src/sched/mod.rs:357-368 | a killed task is marked, off the queue, and if it was blocked, queued to be dropped |
| Schedulers.Scheduler.PopNext | kernel/src/sched/mod.rs:542-551 | the first live task, or the idle task |
| Schedulers.Scheduler.ReapZombies | kernel/src/sched/mod.rs:618-640 | frees the stacks of the dead, never of the running task |
| Schedulers.Scheduler.Schedule | kernel/src/sched/mod.rs:519-555 | one switch, equal to the machine's step |
| Schedulers.Scheduler.Visit | kernel/src/sched/mod.rs:659-671 | looking at one sleeper entry leaves the outcome of the whole scan unchanged |
| Schedulers.Scheduler.TimerTick | kernel/src/sched/mod.rs:652-672 | the scan with its in-place removals is the machine's step |
| Vmalloc.Partition | kernel/src/mm/vmalloc.rs:30-70 | every address below the high-water mark is in exactly one range, free or held |
| Vmalloc.CarveKeepsInv | kernel/src/mm/vmalloc.rs:30-40 | cutting a reservation from a free range keeps the layout canonical |
| Vmalloc.ExtendKeepsInv | kernel/src/mm/vmalloc.rs:41-47 | so does taking it from the top |
| Vmalloc.ReserveComplete | kernel/src/mm/vmalloc.rs:30-47 | a reservation succeeds if and only if some gap of that size exists anywhere |
| Vmalloc.ReleaseAloneKeepsInv | kernel/src/mm/vmalloc.rs:49-70 | a release with no free range before it keeps the layout canonical: merged with the next one and with the top |
| Vmalloc.ReleaseMergedKeepsInv | kernel/src/mm/vmalloc.rs:49-70 | so does one that joins the free range before it |
| Vmalloc.Canonical | kernel/src/mm/vmalloc.rs:30-70 | free ranges and mark are determined by what is held, whatever the order of reservations and releases was |
| Vmalloc.ReleaseUndoesReserve | kernel/src/mm/vmalloc.rs:49-70 | giving a reservation back restores the layout |
| Vmalloc.Drained | kernel/src/mm/vmalloc.rs:49-70 | with nothing held the layout is the initial one |
| Vmalloc.GuardsUnmapped | kernel/src/mm/vmalloc.rs:73-88 | no guard byte of a live allocation is mapped |
| Vmalloc.Separated | kernel/src/mm/vmalloc.rs:73-88 | the data of two allocations is two unmapped pages apart |
| Vmalloc.GuardOwnerUnique | kernel/src/mm/vmalloc.rs:112-119 | a guard address has one owner |
| Vmalloc.RetireOk | kernel/src/mm/vmalloc.rs:99-105 | unmapping the data first leaves a range that may be released |
| VmallocArea.UnmapMapped | kernel/src/mm/vmalloc.rs:90-96 | unmapping what was mapped restores the page tables |
| VmallocArea.LosesOne | kernel/src/mm/vmalloc.rs:73-88 | a frame in hand and no page table for it: the frame is lost |
| VmallocArea.AllFreed | kernel/src/mm/vmalloc.rs:99-105 | with every allocation freed, in any order, the free list is as at boot, nothing is mapped, and the frames still out are those that failed mappings lost |
| VmallocArea.PrevIsNeighbour | kernel/src/mm/vmalloc.rs:57-66 | the last free range before a release is the only one that can touch it |
| VmallocArea.Area.constructor | kernel/src/mm/vmalloc.rs:13-22 | nothing free, nothing held, nothing mapped |
| VmallocArea.Area.FindFit | kernel/src/mm/vmalloc.rs:32-33 | the lowest free range that is long enough |
| VmallocArea.Area.Reserve | kernel/src/mm/vmalloc.rs:30-47 | first fit, else from the top, and none exactly when there is no gap |
| VmallocArea.Area.Release | kernel/src/mm/vmalloc.rs:49-70 | the range is no longer held and the layout is canonical again |
| VmallocArea.Area.UnmapRange | kernel/src/mm/vmalloc.rs:90-96 | exactly the pages of the range are unmapped and their frames given back |
| VmallocArea.Area.MapPages | kernel/src/mm/vmalloc.rs:77-85 | all pages mapped, or none, losing at most the frame that could not be mapped |
| VmallocArea.Area.Allocate | kernel/src/mm/vmalloc.rs:73-88 | fails exactly when no gap fits or a page is missing, and then changes nothing but for the frame that could not be mapped |
| VmallocArea.Area.Deallocate | kernel/src/mm/vmalloc.rs:99-105 | takes away one allocation, its mappings and its range, and loses nothing |
| VmallocArea.Area.GuardOwner | kernel/src/mm/vmalloc.rs:112-119 | the allocation whose guard was hit, and none exactly when it is nobody's guard |
| Mounts.MountedOnIs | kernel/src/fs/mount.rs:102-104 | the search finds the last mount stacked on a spot |
| Mounts.Cross | kernel/src/fs/path.rs:136-144 | crossing stacked mounts ends, because ids grow, at a spot nothing is mounted on |
| Mounts.MountRedirects | kernel/src/fs/mount.rs:106-121 | a mount redirects exactly the walks that end on its spot, to its root |
| Mounts.UmountKeepsOthers | kernel/src/fs/mount.rs:142-156 | unmounting changes no walk that did not end inside what was unmounted |
| Mounts.UmountUndoesMount | kernel/src/fs/mount.rs:142-156 | unmounting the newest mount undoes mounting it |
| Mounts.UmountKeepsRooted | kernel/src/fs/mount.rs:142-156 | every remaining mount still hangs off one that remains |
| Mounts.UmountAnswers | kernel/src/fs/mount.rs:142-156 | a mount can be unmounted exactly by its own root, unless it is the root of the namespace or others are stacked on it; the other mounts stay in their order |
| Mounts.MountTable.constructor | kernel/src/fs/mount.rs:64-76 | one mount, the root |
| Mounts.MountTable.Lookup | kernel/src/fs/mount.rs:102-104 | the backward search is the last mount stacked there |
| Mounts.MountTable.Attach | kernel/src/fs/mount.rs:106-139 | ENOTDIR unless both sides are directories, else a mount with a fresh id on top; the table stays rooted exactly when the mount below is still in it |
| Mounts.MountTable.Detach | kernel/src/fs/mount.rs:142-156 | refused for what is no mount root, for the namespace root and for a mount that others stand on |
| Paths.Walk | kernel/src/fs/path.rs:111-158 | every resolution ends, with at most forty links followed when it succeeds |
| Paths.WalkConfined | kernel/src/fs/path.rs:111-163 | no walk leaves the tree under its root, through dot-dot, absolute and relative links and stacked mounts; ELOOP exactly when the budget is overrun |
| Paths.ResolveConfined | kernel/src/fs/path.rs:70-84 | so for any path a process gives |
| Paths.RunConfined | kernel/src/fs/ops.rs:401-411 | over any run of lookups and directory changes a confined process sees only nodes under its root and stays confined |
| Paths.ConfinedExact | kernel/src/fs/path.rs:70-84 | no path whatever shows a process a node outside its root, if and only if its working directory is under the root or may not be searched |
| Paths.ChrootExact | kernel/src/syscall/file.rs:543-559 | after a chroot, whatever the file systems become, the process sees only nodes under the new root if and only if that root is on the chain of the working directory it kept, or that may not be searched; a confined process gets only roots under its own |
| Paths.ChrootEscapes | kernel/src/syscall/file.rs:543-559 | a chroot into a subdirectory, after which dot is above the root |
| PathNames.AbsolutePath | kernel/src/fs/path.rs:30-48 | the loop writes the names from the root down |
| PathNames.CompsJoin | kernel/src/fs/path.rs:30-48 | splitting a joined path gives its names back |
| PathNames.WalkAppend | kernel/src/fs/path.rs:111-158 | walking a path is walking its beginning, following links, and then the rest |
| PathNames.PathRoundTrip | kernel/src/fs/path.rs:30-84 | resolving the absolute path of a node finds that node, from anywhere, unless the path is too long, for every root whose own names lead back to it |
| PathNames.RoundTripExact | kernel/src/fs/path.rs:30-84 | for every node, where its names meet no link, if and only if the root of the process is the top of the tree |
| PathNames.LinkLeadsHome | kernel/src/fs/path.rs:30-158 | a root below the top that a link leads back to |
| PathNames.ChrootPathLost | kernel/src/fs/path.rs:30-84 | a root below the top whose own absolute path leads nowhere |
| PathNames.WalkCanonical | kernel/src/fs/path.rs:111-158 | every node a walk reaches is one that its own path leads to |
| PathNames.ResolveThenPath | kernel/src/fs/path.rs:30-84 | what any path reaches is reached again by its absolute path |
| PathNames.ParentAgrees | kernel/src/fs/path.rs:89-109 | parent and last name lead by one more step to what the whole path leads to without following its last link; with a slash at the end that step follows it and asks for a directory |
| PathNames.LastIsLookup | kernel/src/fs/path.rs:89-109 | without one, for an ordinary name, it is a single lookup |
| PathNames.ParentOfDots | kernel/src/fs/path.rs:86-109 | the last name can be dot-dot |
| PathSteps.DotDotIs | kernel/src/fs/path.rs:123-129 | dot-dot leads from a searchable directory to its parent, and stays at the top of a chain and at the root of the process |
| PathSteps.DotIs | kernel/src/fs/path.rs:121-122 | dot stays where it is |
| PathSteps.NameIs | kernel/src/fs/path.rs:130-144 | an ordinary name leads to the entry of that name, past whatever is mounted there, and each error has its cause |
| PathSteps.DownAndUp | kernel/src/fs/path.rs:123-144 | into a directory other than the root and out by dot-dot is back where it began, with no link met |
| PathSteps.LinkIs | kernel/src/fs/path.rs:145-152 | the name of a link is its target walked from the directory that holds it, or from the root if it is absolute, with one link more met; the forty-first is ELOOP |
| PathSteps.TrailingSlash | kernel/src/fs/path.rs:68-84 | a slash at the end asks for a directory and follows a last link |
| PathSteps.PathStart | kernel/src/fs/path.rs:68-113 | where a path starts, and the two that lead nowhere |
| PathWalker.Split | kernel/src/fs/path.rs:112-114 | the non-empty pieces between slashes |
| PathWalker.CrossAll | kernel/src/fs/path.rs:136-144 | the crossing loop ends where the definition does |
| PathWalker.WalkPath | kernel/src/fs/path.rs:111-158 | the loop with its nested walks and shared link counter is the definition, errors included |
| PathWalker.ResolvePath | kernel/src/fs/path.rs:70-84 | resolution of a path, and confinement of what it finds |
| SignalFrames.MaskRound | kernel/src/proc/signal.rs:260-264 | a mask survives being stored as a word |
| SignalFrames.UcWord | kernel/src/proc/signal.rs:206-257 | each register is read from where it was written |
| SignalFrames.RegistersAt | kernel/src/proc/signal.rs:206-257 | each of the eighteen registers, the FPU pointer and the mask is at its offset in `struct sigcontext` |
| SignalFrames.UcFpstate | kernel/src/proc/signal.rs:269-350 | so is the pointer to the FPU image |
| SignalFrames.UcSigmask | kernel/src/proc/signal.rs:260-331 | and the mask |
| SignalNest.PlaceShape | kernel/src/proc/signal.rs:269-300 | the parts of a frame are adjacent and aligned, below the red zone, with the stack pointer as at a call |
| SignalNest.FrameHolds | kernel/src/proc/signal.rs:269-331 | what is written is a frame that holds the interrupted context |
| SignalNest.FrameMemOutside | kernel/src/proc/signal.rs:269-331 | delivery writes nothing outside its frame |
| SignalNest.RestoreExact | kernel/src/proc/signal.rs:335-350 | an intact frame gives back eighteen registers, FPU image and mask |
| SignalNest.RestoreNoFpu | kernel/src/proc/signal.rs:335-350 | a context without an FPU area gives back registers and mask and leaves the FPU as it is |
| SignalNest.FrameSlot | kernel/src/proc/signal.rs:303-320 | the slot that the handler's return pops holds the restorer, and the signal information is that of the signal |
| SignalNest.EnteredExact | kernel/src/proc/signal.rs:269-331 | a handler is entered exactly when the addresses fit and every byte of the frame can be written, below the end of the alternate stack if that is asked for and the task is not on it |
| SignalNest.OverflowExact | kernel/src/proc/signal.rs:269-300 | the arithmetic overflows, and the kernel panics, exactly when the end of the alternate stack is needed and past 2 to the 64, or the stack top is from 128 up to 1295 |
| SignalNest.WideAltOverflows | kernel/src/proc/signal.rs:269-290 | an alternate stack of nearly the whole address space makes every caught signal such a case |
| SignalRuns.FramesDisjoint | kernel/src/proc/signal.rs:269-331 | frames of a nest over both stacks occupy disjoint memory |
| SignalRuns.NewApart | kernel/src/proc/signal.rs:269-300 | a new frame is clear of every live one |
| SignalRuns.DeliverEnters | kernel/src/proc/mod.rs:897-962 | the handler starts as the ABI asks, the interrupted red zone is untouched, and exactly the signals it asked for and its own, unless it asked otherwise, are blocked besides |
| SignalRuns.DeliverPlaces | kernel/src/proc/signal.rs:269-300 | the frame starts right below the red zone of the interrupted code, or below the end of the alternate stack, at the multiple of sixteen that the ABI asks for |
| SignalRuns.DeliverArguments | kernel/src/proc/signal.rs:303-331 | the return slot at `rsp` holds the restorer and the saved context is right above it; with SA_SIGINFO `rsi` points to the signal number and `rdx` to the saved context, without it both are zero |
| SignalRuns.DeliverRegisters | kernel/src/proc/signal.rs:321-331 | the handler is called with the signal number, direction flag clear, and every other register as it was |
| SignalRuns.ReturnSlot | kernel/src/proc/signal.rs:319-350 | at any time of any run, the innermost frame still has its restorer in the slot that a return pops, and popping it is where the matching return needs the stack pointer |
| SignalRuns.NextKeepsInv | kernel/src/proc/mod.rs:897-962 | user code, deliveries and returns keep every live frame intact |
| SignalRuns.ReturnRestores | kernel/src/syscall/proc_sys.rs:264-280 | a return restores the context its delivery saved |
| SignalRuns.PrefixKept | kernel/src/proc/mod.rs:897-962 | what happens inside a handler leaves the outer nest alone |
| SignalRuns.Unwind | kernel/src/proc/mod.rs:897-962 | from a delivery, through any nested deliveries and returns, the matching return gives back exactly the interrupted registers, FPU image and mask |
| SignalDelivery.DecideExact | kernel/src/proc/mod.rs:897-930 | the lowest decisive unblocked signal decides; exactly the ignored ones before it and itself are consumed, a SIGKILL excepted |
| SignalDelivery.EffectIs | kernel/src/proc/signal.rs:70-82 | which signals are caught, stop, end the process or do nothing, by number and action; SIGKILL always ends it |
| SignalDelivery.EnterIsCaught | kernel/src/proc/mod.rs:897-962 | with signals arriving at any time meanwhile, a handler is entered only for an unblocked signal that is caught, and the signal is no longer pending |
| SignalDelivery.UserTask.constructor | kernel/src/proc/signal.rs:112-114 | default actions and nothing pending |
| SignalDelivery.UserTask.BuildUcontext | kernel/src/proc/signal.rs:206-226 | the buffer filled word by word is the frame's context image |
| SignalDelivery.UserTask.SetupFrame | kernel/src/proc/signal.rs:269-331 | four copies make the frame, or the delivery fails, or an address does not fit and nothing is written; what the handler finds is `DeliverArguments` |
| SignalDelivery.UserTask.LowestDeliverable | kernel/src/proc/mod.rs:903-909 | the lowest pending signal that is not blocked |
| SignalDelivery.UserTask.NextVerdict | kernel/src/proc/mod.rs:897-930 | the loop that consumes signals ends in the decision of the definition |
| SignalDelivery.UserTask.Deliver | kernel/src/proc/mod.rs:897-962 | at most one handler is entered, with its frame and mask; a frame that cannot be written is fatal to the process, one whose address does not fit to the kernel |
| SignalDelivery.UserTask.SigReturn | kernel/src/syscall/proc_sys.rs:264-280 | an intact frame gives its context back; failure exactly when the context cannot be read |
| Pipes.NextKeepsInv | kernel/src/fs/pipe.rs:126-205 | every turn of every reader and writer keeps the stream's bookkeeping |
| Pipes.StepStream | kernel/src/fs/pipe.rs:126-205 | what is handed out is what readers got, accepted bytes are never revised, and a returned call stays returned |
| Pipes.RunStream | kernel/src/fs/pipe.rs:126-205 | so over runs |
| Pipes.StreamLaw | kernel/src/fs/pipe.rs:126-205 | for any interleaving, bytes read in order followed by bytes buffered are the bytes accepted in order, and the buffer is never over capacity |
| Pipes.WriteLaw | kernel/src/fs/pipe.rs:167-205 | of every finished write the stream holds exactly what it reported, and one of at most PIPE_BUF bytes whole and in one piece or not at all |
| Pipes.EofLaw | kernel/src/fs/pipe.rs:126-165 | a read returns nothing only when all is drained and no writer is left |
| Pipes.NeverBothWait | kernel/src/fs/pipe.rs:126-205 | a reader and a writer never wait for each other |
| Pipes.BlockingWriteWhole | kernel/src/fs/pipe.rs:167-205 | an undisturbed blocking write comes back only when everything was written |
| PipeCalls.ReadCall | kernel/src/fs/pipe.rs:126-165 | a read takes everything up to its size from the front; an empty pipe ends it without writers, and otherwise it waits or gives EAGAIN |
| PipeCalls.WriteMoves | kernel/src/fs/pipe.rs:167-205 | a write with room adds bytes at the end until it is done or the pipe is full, and returns exactly when it is done |
| PipeCalls.WriteStops | kernel/src/fs/pipe.rs:167-205 | without readers it ends, without room it waits or gives up: with what it has written, or else EPIPE or EAGAIN |
| PipeCalls.InterruptCall | kernel/src/fs/pipe.rs:118-205 | an interrupted call returns what it has written, or EINTR |
| PipeCalls.WaitsWhen | kernel/src/fs/pipe.rs:126-205 | a reader waits exactly for data or the last writer to go, a writer exactly for room or the last reader to go |
| Pipes.BootInv | kernel/src/fs/pipe.rs:30-36 | holds of a new pipe |
| PipeEnds.Pipe.constructor | kernel/src/fs/pipe.rs:30-36 | an empty queue without ends |
| PipeEnds.Pipe.Open | kernel/src/fs/pipe.rs:39-56 | the pipe's step; a writer rules out end of file, a reader a broken pipe |
| PipeEnds.Pipe.Drop | kernel/src/fs/pipe.rs:371-384 | the pipe's step; reads give end of file exactly from when the last writer and the data have gone, writes fail exactly from when the last reader has |
| PipeEnds.Pipe.Read | kernel/src/fs/pipe.rs:126-165 | drains from the front into the buffer and touches nothing behind it |
| PipeEnds.Pipe.Write | kernel/src/fs/pipe.rs:167-205 | appends a prefix that fits, a small one only whole |
| PipeEnds.Pipe.WriteAll | kernel/src/fs/pipe.rs:167-205 | the loop stops short only where it must wait or nobody reads |
| TmpfsFiles.StopPageIs | kernel/src/fs/tmpfs.rs:293-304 | the page at which a write gives up is the one whose charge, after those of the missing pages before it, would pass the limit; there is none exactly when there is room for all |
| TmpfsFiles.SplicedBytes | kernel/src/fs/tmpfs.rs:293-304 | writing into a page changes exactly those bytes of that file |
| TmpfsFiles.WriteRefines | kernel/src/fs/tmpfs.rs:285-311 | a successful write zero-pads and overlays, if and only if the bytes stored between the old end and the write were zero; a clean tail stays clean |
| TmpfsFiles.FailedWriteTail | kernel/src/fs/tmpfs.rs:285-311 | a write that the limit stops leaves a clean tail if and only if the bytes it gets to write past the end, known before the call, are zero |
| TmpfsFiles.TruncateRefines | kernel/src/fs/tmpfs.rs:170-190 | truncation cuts or zero-extends, if and only if nothing but zeros was stored up to the new end |
| TmpfsFiles.FailedWriteShows | kernel/src/fs/tmpfs.rs:285-311 | with a limit of one page, a failed write of two and a growth by one byte show what the failed write left |
| TmpfsFiles.StepRefines | kernel/src/fs/tmpfs.rs:170-311 | each operation acts on the file as on a byte string and keeps the tail clean |
| TmpfsFiles.RunRefines | kernel/src/fs/tmpfs.rs:170-311 | over any run of writes and truncations of any files, a file of which no call failed is the byte string its own calls make |
| TmpfsFiles.Perform | kernel/src/fs/tmpfs.rs:170-311 | a call steps its own file when it succeeds and touches no other, whether it succeeds or not |
| TmpfsFiles.Replay | kernel/src/fs/tmpfs.rs:170-311 | every sequence of calls is a run of such steps, with the quota kept throughout |
| TmpfsFiles.TmpFs.constructor | kernel/src/fs/tmpfs.rs:74-84 | no file and nothing charged |
| TmpfsFiles.TmpFs.Create | kernel/src/fs/tmpfs.rs:320-339 | an empty file with a clean tail |
| TmpfsFiles.TmpFs.Charge | kernel/src/fs/tmpfs.rs:137-148 | charged exactly when it stays within the limit |
| TmpfsFiles.TmpFs.WriteChunk | kernel/src/fs/tmpfs.rs:293-304 | a page is charged once, when it is first stored |
| TmpfsFiles.TmpFs.WriteAt | kernel/src/fs/tmpfs.rs:285-311 | writes exactly the bytes before the first page that the limit refuses and reports success exactly when there is none; EFBIG first; used stays 4096 times the stored pages and within the limit |
| TmpfsFiles.TmpFs.WritePages | kernel/src/fs/tmpfs.rs:290-305 | the page loop gets exactly that far |
| TmpfsFiles.TmpFs.ReadAt | kernel/src/fs/tmpfs.rs:258-283 | a slice of the contents, the rest of the buffer untouched |
| TmpfsFiles.TmpFs.Truncate | kernel/src/fs/tmpfs.rs:170-190 | exactly the pages behind the new end are given back and what is left of the last is zero |
| TmpfsFiles.TmpFs.Discard | kernel/src/fs/tmpfs.rs:174-179 | exactly the pages from an index on go, with their charge |
| TmpfsFiles.TmpFs.DropFile | kernel/src/fs/tmpfs.rs:197-205 | exactly the pages of one file go, and with the last file everything |
| TmpfsLinks.AddedLinks | kernel/src/fs/tmpfs.rs:158-168 | how an entry moves the count of every node |
| TmpfsLinks.RemovedLinks | kernel/src/fs/tmpfs.rs:364-397 | and how its removal does |
| TmpfsLinks.CreateOk | kernel/src/fs/tmpfs.rs:320-347 | a file counts its names and a directory two plus its subdirectories, kept by create and symlink |
| TmpfsLinks.LinkOk | kernel/src/fs/tmpfs.rs:349-362 | by link |
| TmpfsLinks.UnlinkOk | kernel/src/fs/tmpfs.rs:364-379 | by unlink, the count never going below zero |
| TmpfsLinks.RmdirOk | kernel/src/fs/tmpfs.rs:381-397 | by rmdir |
| TmpfsLinks.MoveOk | kernel/src/fs/tmpfs.rs:399-454 | by a change of name, between directories too |
| TmpfsLinks.RenamedNames | kernel/src/fs/tmpfs.rs:399-454 | a rename costs the displaced node one name and no other node any |
| TmpfsLinks.RenameAnswers | kernel/src/fs/tmpfs.rs:399-454 | a rename goes through exactly when there is something to rename between directories and what is in its way is the same node or an empty one of the same kind; which names stand for what afterwards |
| TmpfsLinks.Tree.constructor | kernel/src/fs/tmpfs.rs:74-84 | the root alone |
| TmpfsLinks.Tree.Create | kernel/src/fs/tmpfs.rs:320-347 | outcome and new entry, counts and kinds of nodes kept |
| TmpfsLinks.Tree.Link | kernel/src/fs/tmpfs.rs:349-362 | EPERM for directories before anything else |
| TmpfsLinks.Tree.Unlink | kernel/src/fs/tmpfs.rs:364-379 | never a directory |
| TmpfsLinks.Tree.Rmdir | kernel/src/fs/tmpfs.rs:381-397 | only an empty directory |
| TmpfsLinks.Tree.Displace | kernel/src/fs/tmpfs.rs:436-443 | the replaced target loses its name and its count |
| TmpfsLinks.Tree.Move | kernel/src/fs/tmpfs.rs:430-447 | the entry changes its name, directories their parents' counts |
| TmpfsLinks.Tree.Rename | kernel/src/fs/tmpfs.rs:399-454 | every error case in order, nothing between two names of one file, else the move |
| Overlays.UpperUnique | kernel/src/fs/overlayfs.rs:192-230 | two nodes never share an upper inode |
| Overlays.PutInv | kernel/src/fs/overlayfs.rs:128-184 | a new upper inode under a free name is seen by no node |
| Overlays.AdoptInv | kernel/src/fs/overlayfs.rs:128-184 | a node that switches to an equal upper inode shows what it showed |
| Overlays.PokeInv | kernel/src/fs/overlayfs.rs:272-275 | changing a node's upper file changes that node only |
| Overlays.CopiedUp | kernel/src/fs/overlayfs.rs:148-184 | a whole copy-up is invisible |
| Overlays.OrphanPoke | kernel/src/fs/overlayfs.rs:162-179 | so is filling a file that no node uses yet |
| Overlays.Started | kernel/src/fs/overlayfs.rs:148-184 | and a copy-up that stops after linking its file, which then keeps the name |
| Overlays.Finished | kernel/src/fs/overlayfs.rs:148-184 | and its end |
| Overlays.CachedInv | kernel/src/fs/overlayfs.rs:192-230 | a node made by a lookup fits the tree |
| OverlayRuns.Perform | kernel/src/fs/overlayfs.rs:192-275 | a read gives the bytes of a private copy, a write or truncation changes that copy and no other, only a lookup brings in a file, which is the upper one of the name or else the lower one, and the lower layer never changes |
| OverlayRuns.Replay | kernel/src/fs/overlayfs.rs:192-275 | any sequence of calls on any handles is a run of such answers |
| OverlayRuns.TraceIsPrivate | kernel/src/fs/overlayfs.rs:192-275 | what a file holds at any time is what the calls since any earlier time make of a private copy taken then |
| OverlayRuns.SimulatesCopy | kernel/src/fs/overlayfs.rs:263-275 | so every read in the run gives that copy's bytes |
| OverlayRuns.PlainCopy | kernel/src/fs/overlayfs.rs:263-275 | and as long as the upper layer stops no write, the copy is a plain byte string that writes overlay and truncations cut or zero-extend |
| OverlayRuns.ReadsLower | kernel/src/fs/overlayfs.rs:192-275 | so a file that a lookup brings in from the lower layer reads, ever after, as what its successful writes and truncations make of the lower file |
| OverlayRuns.StoppedShows | kernel/src/fs/overlayfs.rs:272-275 | a write that the upper layer stops leaves the size, and shows exactly the bytes that it got to inside the file |
| OverlayRuns.MergedChild | kernel/src/fs/overlayfs.rs:192-230 | a merged directory has the upper entry of a name if there is one, none if the name is hidden, and else the lower one |
| OverlayTree.Overlay.constructor | kernel/src/fs/overlayfs.rs:48-53 | a mount over two layers |
| OverlayTree.Overlay.EnsureUpperDir | kernel/src/fs/overlayfs.rs:128-145 | the missing upper directories appear from the top down, invisibly; it ends with the depth of the parents |
| OverlayTree.Overlay.Fill | kernel/src/fs/overlayfs.rs:162-179 | copies all of the lower file exactly when the upper layer takes all chunks |
| OverlayTree.Overlay.CopyFile | kernel/src/fs/overlayfs.rs:148-184 | the node switches only once the copy is whole |
| OverlayTree.Overlay.CopyUp | kernel/src/fs/overlayfs.rs:148-184 | succeeds exactly when it is done already, or nothing half-written is in the way and the upper layer has room; never visible |
| OverlayTree.Overlay.ReadAt | kernel/src/fs/overlayfs.rs:268-270 | the bytes of the active layer |
| OverlayTree.Overlay.WriteAt | kernel/src/fs/overlayfs.rs:272-275 | succeeds exactly when the copy-up does and the upper layer has room; changes this file as a private copy, no other file and never the lower layer; a failing copy-up changes nothing, a stopped write leaves what it got written |
| OverlayTree.Overlay.SetSize | kernel/src/fs/overlayfs.rs:263-266 | likewise for truncation, where a failure changes nothing |
| OverlayTree.Overlay.Lookup | kernel/src/fs/overlayfs.rs:192-230 | one node per name, the same ever after, upper before lower |
| InitialStack.FitsExact | kernel/src/proc/elf.rs:131-191 | everything fits if and only if the aligned stack pointer stays inside the stack |
| InitialStack.Disjoint | kernel/src/proc/elf.rs:131-191 | strings, random block and words do not overlap |
| InitialStack.CStringIs | kernel/src/proc/elf.rs:135-149 | a string is read back whole if and only if it holds no NUL |
| InitialStack.PointersIs | kernel/src/proc/elf.rs:175-184 | a null-terminated array is read back |
| InitialStack.PairsIs | kernel/src/proc/elf.rs:155-184 | so is the auxiliary vector |
| InitialStack.RoundTrip | kernel/src/proc/elf.rs:131-191 | a program reading from its stack pointer finds argc, argv, envp and auxv, the strings if and only if none holds a NUL, as section 3.4.1 of the System V AMD64 ABI lays them out |
| InitialStack.ProgramFound | kernel/src/proc/elf.rs:155-173 | a program finds its headers, entry, page size and interpreter base under the keys of the ABI, the last only if there is an interpreter |
| InitialStack.ProcessFound | kernel/src/proc/elf.rs:155-173 | and its credentials, the address of the random bytes and that of its name |
| InitialStack.AuxPointers | kernel/src/proc/elf.rs:131-191 | following the pointers it finds the sixteen random bytes and the name it was started by |
| InitialStack.PushAll | kernel/src/proc/elf.rs:135-149 | every string in place, or refused exactly when they do not fit |
| InitialStack.WriteWords | kernel/src/proc/elf.rs:185-190 | the words in place and nothing else touched |
| InitialStack.BuildStack | kernel/src/proc/elf.rs:131-191 | succeeds exactly when all fits, with a 16-aligned stack pointer and everything in place |
| HttpReader.FirstCrlfStays | kernel/src/net/http.rs:153-174 | more bytes never move the end of a line that is there |
| HttpReader.ChunkedDecodes | kernel/src/net/http.rs:286-301 | a well-formed chunked stream (section 7.1 of RFC 9112) decodes to its chunks, whatever follows it |
| HttpReader.SizeRoundTrip | kernel/src/net/http.rs:288-291 | a hexadecimal size with or without extensions is read back |
| HttpReader.HexOfIs | kernel/src/net/http.rs:288-291 | for every size that fits a machine word |
| HttpMessages.ResponseRoundTrip | kernel/src/net/http.rs:252-319 | a status line, header lines and an empty line are read back in order, and the body is what their framing says |
| HttpMessages.BodyRoundTrip | kernel/src/net/http.rs:284-319 | a counted body is read back, whatever follows it |
| HttpMessages.ChunksRoundTrip | kernel/src/net/http.rs:284-301 | and so is a chunked one |
| HttpMessages.HeadCut | kernel/src/net/http.rs:252-283 | a response that ends before its empty line is refused |
| HttpMessages.SizeRead | kernel/src/net/http.rs:288-291 | a chunk size in upper or lower case, with spaces, a plus sign or extensions, is read back if it fits a word and refused if not |
| HttpMessages.SizeRefused | kernel/src/net/http.rs:288-291 | a size line with anything else among its digits is refused |
| HttpReader.Conn.constructor | kernel/src/net/http.rs:253-254 | nothing read yet |
| HttpReader.Conn.Read | kernel/src/net/http.rs:139-144 | some bytes off the front, none only at the end |
| HttpReader.Conn.ReadLine | kernel/src/net/http.rs:153-174 | a line off the stream, the same however it was cut |
| HttpReader.Conn.ReadExact | kernel/src/net/http.rs:176-202 | the wanted bytes, or all there are |
| HttpReader.Conn.ReadToEnd | kernel/src/net/http.rs:304-318 | the whole rest of the stream |
| HttpReader.Conn.ReadChunked | kernel/src/net/http.rs:286-301 | the chunk loop depends on the stream alone |
| HttpReader.Conn.ReadBody | kernel/src/net/http.rs:284-319 | so does the body for each framing |
| HttpReader.Conn.Fetch | kernel/src/net/http.rs:252-319 | status line, headers and body are a function of the stream, for every way of cutting it |
| Civil.YearLength | kernel/src/time.rs:77-85 | years have 365 or 366 days by the 4/100/400 rule |
| Civil.SuccessorIsNext | kernel/src/time.rs:77-85 | the next date has the next day number |
| Civil.Epoch | kernel/src/time.rs:77-85 | day zero is the first of January 1970 |
| Civil.CalendarPeriod | kernel/src/time.rs:77-85 | four hundred years are 146097 days |
| Civil.DateFor | kernel/src/time.rs:77-85 | every day number has a date |
| Civil.YearFound | kernel/src/time.rs:88-99 | the year correction is right on every day of an era |
| Civil.CivilOfDays | kernel/src/time.rs:77-99 | reading the date back from its day number gives the date |
| Civil.DaysOfCivil | kernel/src/time.rs:77-99 | and conversely for every day number, negative ones included |
| Civil.ConsecutiveDays | kernel/src/time.rs:88-99 | consecutive day numbers are consecutive dates |
| Civil.DaysBeforeIs | kernel/src/time.rs:116-123 | the first of a month is the first of the year plus the days of the months before |
| Civil.FromUnixRecombines | kernel/src/time.rs:116-123 | all fields are in range and recombine to the second; the day of the year counts months and day |
| Civil.Weekdays | kernel/src/time.rs:116-123 | weekdays follow each other from a Thursday |
| Civil.FromUnixWeekday | kernel/src/time.rs:116-123 | the weekday of a second is Thursday on the first day of 1970, one further with each day, and that of its date |

## Left out

- AddressSpaces.Memory.Fork: is one task's loop with nothing in between; other tasks come in between its pages in the state machine (`ForkPage`), not in this method. Dropping the half-made child of a fork that gave up is not part of it.
- AddressSpaces.Memory.SwapIn: likewise without other tasks in between.
- AddressSpaces.Memory.Drop: asks that no eviction or fault of the space is under way, as such a task holds a reference to it.
- UserMemory lets a fault take its frame in the same step as the read into it, and treats a page of a mapped file as unchanging.
- RunQueue.InvMeans: does not follow the stack of a task that was killed; that stack goes with the last reference to it, which may be held outside the scheduler.
- Regions takes addresses as unbounded: `munmap`, `mprotect`, `mmap` and `brk` add and round up user values with checked arithmetic, which panics for values near the end of the address space.
- The shared page that a cut region's tail is looked up under is modelled in Regions only; UserMemory takes the key of a page as given.
- x86 page-table walking, the TLB and the freeing of page-table pages: an address space is a map from page to entry.
- The 16-bit frame counter: counts are unbounded.
- The memory charged to a container: fork maps pages without charging them and teardown uncharges them, so there is no balance to prove.
- The choice of victims among pages by `reclaim_pass`.
- The vmalloc counter of mapped bytes, and the panic of its size computation for sizes no machine has.
- Time slices, load averages and CPU accounting, and the code that switches stacks: a switch is an assignment to the current task. Wakes of tasks waiting for an exit are separate steps.
- Permissions on a path beyond one search flag per directory, the check that only root may `chroot`, and the wrap-around of 32-bit mount ids.
- Stopping and continuing by signals, fields of the signal information other than the number, and a change of the alternate stack while it is in use.
- Polling of pipes, opening of named pipes and socket pairs.
- Times and other metadata of tmpfs nodes, and its inode total.
- The overlay as a union: creating, removing and renaming through it, making white-outs, and two copy-ups of one node at the same time.
- Loading of ELF segments.
- Sending HTTP requests and reading header values: how the body is framed is a parameter. Time-outs, interrupts and failing allocations are not modelled.
- Clock hardware, the buddy and slab allocators, ext2, netfilter, drivers, cryptography, containers and the shell.
