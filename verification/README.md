# A Dafny model of the sOS kernel core

The project models, in Dafny, the parts of the sOS kernel whose correctness rests on an
invariant kept across many operations: the physical memory allocators, copy-on-write
address spaces, the process image set up by `exec`, virtual memory areas, the splice and
channel primitives, the process tree, the block buffer, the descriptor table and the
timer arithmetic. Each component has a specification on values; where the kernel updates
a structure in place, a class does the same updates and is proved equal to that
specification. Check it with `dafny verify dfyconfig.toml`.

| file | component |
|---|---|
| `Common.dfy` | options, error results, bytes and pages, lists without duplicates |
| `PowersOfTwo.dfy` | alignment, exclusive or and masking as arithmetic |
| `Buddy.dfy`, `BuddyTheorems.dfy`, `BuddyRuns.dfy`, `FrameAllocator.dfy` | the buddy frame allocator: state and step lemmas; theorems about one call; runs of several owners; the allocator in place |
| `Cow.dfy`, `CowKernel.dfy` | copy-on-write as an interleaved protocol; the fault handlers and the clone loop in place |
| `Region.dfy`, `RegionList.dfy`, `Smalloc.dfy`, `FreeRegions.dfy` | the early allocator and its free-region iterator |
| `ExecStack.dfy`, `ExecSetup.dfy` | layout of the initial user stack with a reader for it; the code that builds it |
| `Vma.dfy` | file-backed areas, demand faults, cutting and merging |
| `MemoryMap.dfy`, `MapAreas.dfy`, `MapBytes.dfy`, `MapInPlace.dfy` | the map of all areas and its permissions; which area and byte an address has after unmapping and insertion; what unmapping, insertion and a change of permissions do to its bytes; the map in place |
| `WakerSet.dfy` | the waker set |
| `Kbuf.dfy`, `KbufWaiters.dfy` | splicing between two ring buffers; either side of a ring as a protocol of waiting futures and splices |
| `Mpsc.dfy`, `MpscChannel.dfy` | the channel as a protocol of any number of receive futures; the channel in place |
| `ProcessTree.dfy` | thread groups, with clone and exit cut into their lock sections |
| `BlockBuffer.dfy` | byte access over a block device |
| `FdTable.dfy` | file descriptors |
| `Timer.dfy` | instants, ticks and durations |

## What is proved

- **Buddy allocator.** One invariant (every block aligned and inside memory, blocks
  disjoint, every page in at most one block, lists hold exactly the free heads, no two
  free buddies left unmerged, counter equal to the free pages) is kept by every
  allocation, clone and drop. From it: an allocation fails if and only if no aligned
  run of free pages of that order exists; allocating then dropping gives back the same
  lists, in the same order; over every legal run of allocations, clones, drops and leaks
  the reference count is the number of live handles, and a block stops being allocated
  only at the last drop of a block nobody leaked.
- **Copy-on-write.** Protection faults, missing-page faults and clones are split into their
  separate sections and interleaved freely between address spaces, with user writes in
  between. Every run shows the programs exactly the memory an eager-copying kernel would
  show, no writable page is ever shared with a live mapping, and a write to a forked page
  of a writable area ends with the page writable again under the area's permissions.
- **Early allocator.** First fit returns the least aligned address whose range lies in
  memory and off every reservation, and fails only when none exists; freeing what was
  allocated restores the list itself, because a normalised list is determined by the
  addresses it covers.
- **Initial stack.** A reader that follows the System V process entry layout, using only the
  stack pointer and the mapped pages, recovers the arguments, environment and auxiliary
  vector that went in.
- **Memory map.** Insertion and a change of permissions set the permissions of exactly their
  range, whatever they overlap, cut and merge with on the way, and for each of unmapping,
  insertion and a change of permissions the exact condition is given under which every byte
  of the map stays what it was.
- **Runs.** The channel, the waiters of a ring, the process tree and the descriptor table
  have invariants kept by every step, and their user-level promises are stated over every
  legal run.

Some behaviours differ from what one would expect. Each is modelled as the code has it, with
the exact condition for it and an input that shows it.

- `iter_free` yields reserved addresses when one reservation reaches two memory regions,
  because the reservation is used up at the first. The result is exact if and only if no
  reservation does so (`FreeRegions.ExactIffNoneSpans`, `FreeRegions.SpanExample`).
- `splice_from` can move less than both sides have room for: it does if and only if that
  amount is larger than the first slice of both rings (`Kbuf.SpliceFrom`,
  `Kbuf.ShortfallExample`).
- Adding a difference of two instants back gives the later instant if and only if the tick
  remainder is a whole number of nanoseconds (`Timer.SubThenAdd`, `Timer.LostTickExample`).
- Unmapping part of a file mapping keeps the bytes of the rest if and only if nothing is
  left behind the hole, or the cut is at the front of an area no longer than its mapping.
  Around a hole it never does: the part behind keeps the file offset of the part before
  (`MapBytes.UnmapKeepsBytesIff`, `Vma.UnmapMiddleExample`).
- Merging keeps the mapping of the first area. The bytes survive if and only if that mapping
  reaches into each absorbed area exactly as far as the area's own, and continues in the
  same file at the same offset (`MapBytes.JoinedBytesIff`, `MapBytes.InsertKeepsBytesIff`).
- A successful change of permissions therefore keeps the bytes of the map if and only if each
  piece of the area, inserted in turn, meets that condition (`MapBytes.MprotectBytesIff`).
  Giving part of a file area the permissions it has already loses bytes whenever the first
  cut has file bytes behind it (`MapBytes.MprotectSamePermsIff`), and a whole area given the
  permissions of its neighbour can come to read as zeros (`MapBytes.MprotectJoinExample`).
- A change of permissions over more than one area fails, and the area of the first address
  has been taken out of the map and is not put back (`MemoryMaps.MprotectPerms`,
  `MemoryMaps.MprotectFailureExample`).
- Two faults on one page of a file leave the second one's frame allocated with nothing to
  free it. A frame is lost exactly when its fault comes to map it and finds the page mapped
  (`Cow.LostOnlyByRacingFaults`, `Cow.RacingFaultsExample`).
- A missing page without file contents that another thread has mapped by the time the handler
  has the lock stops the kernel (`CowKernel.Machine.HandleDemandFault`).
- A page that was part of an allocation and has been freed keeps its record, so the question
  whether it is exclusively allocated can be answered with yes while it is free
  (`BuddyTheorems.ExclusiveIff`, `BuddyTheorems.StaleTailExample`).
- A splice never takes its registration with a ring back. Once it is over, a wake-up is used
  up on it for every time it registered, and wakes nobody (`KbufWaiters.SwallowsIff`,
  `KbufWaiters.SwallowedSupplies`, `KbufWaiters.AbandonedSpliceExample`).
- A receive future whose wake-up another future has used up is not registered again and
  sleeps for good. With one future at a time this never happens (`Mpsc.StrandedExactly`,
  `Mpsc.SingleConsumerNeverMisses`, `Mpsc.StolenWakeupExample`).
- A process that reads its parent before the parent hands its children to init, and leaves
  after, stays among init's children. Children sets and parent links agree if and only if
  no leave was stale in this way (`ProcessTree.TreeSafety`, `ProcessTree.RacingExitsLinger`).
- A process that its parent comes to list only after handing its children over is never
  handed to init, even if it was created with that parent before the exit began
  (`ProcessTree.TreeSafety`, `ProcessTree.RacingCloneStrands`).
- A `clone` that fails to copy memory has already registered the new thread group with
  its parent and does not take it out again (`ProcessTree.Processes.Clone`).

## Model

| member | source | states |
|---|---|---|
| BuddyTheorems.AllocKeepsWellFormed | libkernel/src/memory/page_alloc.rs:239-292 | an allocation keeps the whole invariant; on success the block was an aligned run of free pages, has one reference, all other allocated blocks keep their state, and the counter falls by exactly 2^order; on failure nothing changes |
| BuddyTheorems.DropKeepsWellFormed | libkernel/src/memory/page_alloc.rs:81-142 | dropping keeps the invariant and every other allocation; only the last reference frees the pages, and then all 2^order of them are free and counted |
| BuddyTheorems.RecountOk | libkernel/src/memory/page_alloc.rs:205-223 | changing the reference count of a live head to any positive count keeps the invariant and all other frames |
| BuddyTheorems.FreeRunInOneBlock | libkernel/src/memory/page_alloc.rs:105-132 | eager merging: any aligned run of free pages lies inside a single free block |
| BuddyTheorems.AllocFailsOnlyWhenItMust | libkernel/src/memory/page_alloc.rs:247-255 | an order is refused as invalid if and only if it is too large, and a legal one for lack of memory if and only if no run of that many free pages starts at a multiple of its size |
| BuddyTheorems.CounterCountsFreePages | libkernel/src/memory/page_alloc.rs:286 | the counter equals the number of pages inside free blocks |
| BuddyTheorems.MergeUndoesSplit | libkernel/src/memory/page_alloc.rs:263-270 | merging from the order split down to passes through the state before the split |
| BuddyTheorems.AllocThenDropRestores | libkernel/src/memory/page_alloc.rs:226-230 | allocate then drop gives back the same free lists, element for element, and the same counter |
| BuddyTheorems.BlankIsWellFormed | libkernel/src/memory/page_alloc.rs:360-394 | the metadata before any memory is handed over satisfies the invariant |
| BuddyTheorems.CarveManySpec | libkernel/src/memory/page_alloc.rs:404-411 | carving n blocks frees exactly those that start at p + i * 2^order, lists them newest first, counts them, and leaves every other frame alone |
| Buddy.BuddySymmetric | libkernel/src/memory/page.rs:33-37 | flipping the order bit of an aligned frame is its own inverse, keeps alignment, and gives the adjacent block |
| Buddy.SplitOk | libkernel/src/memory/page_alloc.rs:263-270 | splitting a detached block keeps all block invariants and leaves exactly a hole of the requested order |
| Buddy.MergeOk | libkernel/src/memory/page_alloc.rs:105-132 | merging keeps all block invariants and ends with a hole holding the freed block whose buddy is not free |
| BuddyRuns.StepKeepsOwned | libkernel/src/memory/page_alloc.rs:185-230 | every allocate, clone, drop and leak keeps: the count of each head is the number of live plus leaked handles, and handles name heads |
| BuddyRuns.RunKeepsOwned | libkernel/src/memory/page_alloc.rs:185-230 | the same over every legal run |
| BuddyRuns.ReachableCompleteness | libkernel/src/memory/page_alloc.rs:239-292 | after any legal run, allocation fails if and only if the order is too large or no free run starts at a multiple of its size |
| BuddyRuns.FreedOnlyByLastDrop | libkernel/src/memory/page_alloc.rs:194-230 | a step ends an allocation if and only if it is the drop of its only handle and it was never leaked |
| BuddyRuns.FreshBlockIsNobodyElses | libkernel/src/memory/page_alloc.rs:239-292 | a block just allocated overlaps no block anyone holds |
| FrameAllocator.Allocator.constructor | libkernel/src/memory/page_alloc.rs:360-383 | the object holds exactly the given frames, lists and counter |
| FrameAllocator.Allocator.CarveRegion | libkernel/src/memory/page_alloc.rs:402-411 | start-up carving keeps the invariant, carves as many whole blocks as fit and no more |
| FrameAllocator.Allocator.AllocFrames | libkernel/src/memory/page_alloc.rs:239-292 | the in-place allocation equals the specified one, errors included |
| FrameAllocator.Allocator.FindOrder | libkernel/src/memory/page_alloc.rs:247-255 | finds the smallest sufficient non-empty list, or none |
| FrameAllocator.Allocator.SplitDown | libkernel/src/memory/page_alloc.rs:263-270 | the splitting loop equals the specified split |
| FrameAllocator.Allocator.MarkAllocated | libkernel/src/memory/page_alloc.rs:272-284 | marks the head and every tail of the block, and no other frame |
| FrameAllocator.Allocator.FreeFrames | libkernel/src/memory/page_alloc.rs:81-142 | the in-place free equals the specified drop and keeps the invariant |
| FrameAllocator.Allocator.MergeUp | libkernel/src/memory/page_alloc.rs:105-132 | the merging loop equals the specified merge |
| FrameAllocator.Allocator.RemoveFromFreeList | libkernel/src/memory/page_alloc.rs:170-182 | takes the block off its list, wherever it stands, and forgets its state |
| FrameAllocator.Allocator.CloneAllocation | libkernel/src/memory/page_alloc.rs:205-223 | adds one reference and keeps the invariant |
| FrameAllocator.Allocator.IsAllocatedExclusive | libkernel/src/memory/page_alloc.rs:318-332 | on every page of an allocated block the answer is whether that block has one reference; on any page it is whether the frame its tail records lead to heads such a block |
| BuddyTheorems.ExclusiveIff | libkernel/src/memory/page_alloc.rs:318-332 | that answer is the documented one if and only if the page lies in an allocated block or no record it has kept leads to a block with one reference |
| BuddyTheorems.StaleTailExample | libkernel/src/memory/page_alloc.rs:318-332 | allocating four pages, freeing them and allocating one leaves a free page that counts as exclusively allocated |
| Cow.StepKeepsInv | src/memory/fault.rs:40-156 | every section of faults and clones and every user write keeps: counts are mappings, handles and lost references together; a writable page has one live mapping; and what each pending operation relies on is still true |
| Cow.FaultStepsAreInvisible | src/memory/fault.rs:103-148 | no section of a protection fault, nor the allocation and read of a missing page, changes what any program can read |
| Cow.WriteReachesOneSpace | libkernel/src/memory/permissions.rs:147-184 | a user write through a writable, hence not copy-on-write, mapping changes one page of one address space, as an eager copy would |
| Cow.CheckDecides | src/memory/fault.rs:117-131 | a copy-on-write fault claims its page if and only if mappings, handles and lost references of the frame together are one, and otherwise needs a new frame |
| Cow.ResolvedIsWritable | libkernel/src/memory/permissions.rs:177-184 | after the claim or the remapping of a copy, wherever others are in their sections, the store that faulted is enabled at every byte of the page |
| Cow.StepRefinesEager | src/arch/arm64/memory/address_space.rs:164-198 | every section acts on the visible memory as the eager-copying kernel does; a clone takes effect when the parent's entry is protected, after the child's was written, with user writes possible in between |
| Cow.RunRefinesEager | src/memory/fault.rs:40-156 | every interleaved run shows the memory the eager-copying kernel shows |
| Cow.MappedPagesAreSafe | libkernel/src/memory/permissions.rs:147-184 | after any run a mapped page is allocated with a count at least its mappings, and a writable one is not copy-on-write and is the only live mapping |
| Cow.MapsWhatItRead | src/memory/fault.rs:55-92 | whatever runs in between, a missing-page fault maps the page its last read gave it, or zeros if it has read nothing |
| Cow.LostExactly | src/memory/fault.rs:55-81 | a step loses a frame exactly when a waiting fault finds its page mapped, and a lost frame stays lost |
| Cow.LostOnlyByRacingFaults | src/memory/fault.rs:55-81 | over every run, a frame is lost if and only if some fault came to map it and found the page mapped |
| Cow.RacingFaultsExample | src/memory/fault.rs:55-81 | two faults on one page of a file, each with its allocation, read and mapping, lose the second one's frame |
| CowKernel.Machine.HandleDemandFault | src/memory/fault.rs:40-92 | denied, out of memory, deferred and resolved each in its case; a page without file contents is mapped zeroed, and the kernel stops if and only if such a page is mapped already; a deferred fault owns its frame and nothing visible has changed |
| CowKernel.Machine.CompleteDemandFault | src/memory/fault.rs:55-81 | a failed read, a changed area, a page mapped meanwhile and success each in its case and no other outcome; the frame is lost exactly in the third |
| CowKernel.Machine.HandleProtectionFault | src/memory/fault.rs:96-156 | visible memory is unchanged and only the faulting entry changes; denied and out of memory each happen if and only if their conditions hold; a resolved write leaves the entry writable, unmarked and otherwise as it was, on its own frame if that had one reference and on the new frame, with one reference moved, if not |
| CowKernel.Machine.ClaimPage | src/memory/fault.rs:117-128 | a sole owner keeps its frame; its entry becomes writable, loses the copy-on-write mark and keeps read, execute and user |
| CowKernel.Machine.CopyPage | src/memory/fault.rs:129-148 | a sharer moves to a copy under a writable, unmarked entry, the old frame loses one reference, and every other entry keeps frame and contents |
| CowKernel.Machine.ProtectAndCloneRegion | src/arch/arm64/memory/address_space.rs:150-199 | parent and child end with the same frames under the protected permissions, and the child sees the parent's pages |
| CowKernel.Machine.CloneAsCow | libkernel/src/memory/proc_vm/memory_map/mod.rs:473-496 | cloning all areas gives the child the parent's visible memory in those areas; both map the same frames, copy-on-write and not writable where the area is writable and with the area's own permissions where it is not; no other entry changes |
| CowKernel.Machine.ForkThenWrite | src/memory/fault.rs:102-148 | after a fork a write by parent or child to a page of a writable area is never denied, and once resolved the page has exactly the area's permissions again |
| CowKernel.ReclonedSpec | src/arch/arm64/memory/address_space.rs:160-190 | which page-table entries a region clone changes, and that it changes no other |
| CowKernel.ForkedSpec | src/arch/arm64/memory/address_space.rs:150-199 | the child's region holds the parent's pages and all other memory is untouched |
| CowKernel.ForkedAllSpec | libkernel/src/memory/proc_vm/memory_map/mod.rs:473-496 | the same over all areas of an address space |
| CowKernel.ReclonedAllSpec | libkernel/src/memory/proc_vm/memory_map/mod.rs:477-490 | which entries the clone of all areas leaves, with which frame, and each of their permission bits in terms of the area's |
| Regions.Region.Merge | libkernel/src/memory/region.rs:147-164 | the merge covers exactly the union, and there is none if and only if a gap separates the two |
| Regions.Region.PunchHole | libkernel/src/memory/region.rs:175-210 | the pieces cover exactly the region without the hole, each non-empty, and two pieces leave exactly the hole between them |
| Regions.Canonical | libkernel/src/memory/smalloc.rs:73-111 | two normalised lists covering the same addresses are the same list |
| RegionLists.RegionList.RemoveAt | libkernel/src/memory/smalloc.rs:59-71 | removes one element and closes the gap; an index out of range changes nothing |
| RegionLists.RegionList.InsertRegion | libkernel/src/memory/smalloc.rs:73-111 | the list stays sorted with gaps between neighbours and covers exactly the old addresses and the new region |
| RegionLists.RegionList.AbsorbNeighbours | libkernel/src/memory/smalloc.rs:73-93 | after absorbing, no element touches the merged region and no address is lost or added |
| Smalloc.AlignUpIsLeast | libkernel/src/memory/address.rs:140-143 | aligning up gives the least multiple not below the address |
| Smalloc.MaskingAlignsUp | libkernel/src/memory/address.rs:140-143 | adding and masking with a power of two is aligning up |
| Smalloc.FitsIsAddresses | libkernel/src/memory/smalloc.rs:201-233 | the region-wise test of a placement is the address-wise one: all in memory, none reserved |
| Smalloc.Allocator.FindAllocationLocation | libkernel/src/memory/smalloc.rs:201-233 | returns the least placement that fits, and none only if none fits |
| Smalloc.Allocator.SearchRegion | libkernel/src/memory/smalloc.rs:205-229 | within one memory region, with the reservation cursor kept from earlier regions, the first fit is the least one |
| Smalloc.Allocator.Alloc | libkernel/src/memory/smalloc.rs:235-248 | reserves exactly the least fitting range; fails exactly when the list is full or nothing fits, and then changes nothing |
| Smalloc.Allocator.Free | libkernel/src/memory/smalloc.rs:250-298 | removes exactly the given range from the reservations; each error happens exactly in its case and changes nothing |
| Smalloc.Allocator.AllocThenFree | libkernel/src/memory/smalloc.rs:235-298 | freeing what was just allocated restores the reservation list itself |
| FreeRegions.Iter.Next | libkernel/src/memory/smalloc.rs:421-501 | each call yields the lowest remaining piece, non-empty, and the rest stays pending; the end comes only when nothing is pending |
| FreeRegions.Iter.ConsumeReservation | libkernel/src/memory/smalloc.rs:455-499 | using up an overlapping reservation leaves exactly the addresses before it and those still pending |
| FreeRegions.Collect | libkernel/src/memory/smalloc.rs:395-401 | the whole iteration yields ascending disjoint pieces covering exactly the pending addresses, which is memory without reservations if and only if no reservation overlaps two memory regions |
| FreeRegions.ExactIffNoneSpans | libkernel/src/memory/smalloc.rs:395-501 | the pieces are memory without reservations if and only if no reservation overlaps two memory regions |
| FreeRegions.SpanIsYielded | libkernel/src/memory/smalloc.rs:421-501 | a reserved address in a later region is yielded when its reservation overlaps an earlier region |
| FreeRegions.SpanExample | libkernel/src/memory/smalloc.rs:421-501 | two regions under one reservation, one of whose addresses is yielded |
| ExecStack.StackRoundTrip | src/process/exec.rs:140-238 | reading the stack from the stack pointer recovers argument, environment and auxiliary vectors |
| ExecStack.StringsRoundTrip | src/process/exec.rs:198-207 | every string address points at that string, terminated |
| ExecStack.WordsRoundTrip | src/process/exec.rs:209-214 | words written little-endian read back as the same words |
| ExecStack.TotalSize | src/process/exec.rs:187-196 | the image size is 16-aligned and wastes less than 16 bytes over strings and words |
| ExecStack.InfoInRange | src/process/exec.rs:148-181 | with a size within the limit, every word fits 64 bits and every pointer is non-null below the stack end |
| ExecSetup.StringAddresses | src/process/exec.rs:148-163 | the backward assignment loop gives every string the specified address |
| ExecSetup.WriteImage | src/process/exec.rs:198-214 | the image is the words, zero padding, then the strings |
| ExecSetup.MapPages | src/process/exec.rs:216-235 | the mapped pages are exactly those the image touches, hold it right below the stack end and zeros below it, inside the stack area; fails if and only if the frames do not hold the image |
| ExecSetup.SetupUserStack | src/process/exec.rs:140-238 | each error happens exactly in its case; otherwise the stack pointer is 16-aligned inside the stack area and reading from it recovers the vectors |
| Vma.FaultFillsDenoted | libkernel/src/memory/proc_vm/vmarea.rs:303-360 | a fault anywhere in a page fills every address of the page that the area has with the byte it denotes, and its read stays in the page |
| Vma.DemandPagingLoadsSegment | libkernel/src/memory/proc_vm/vmarea.rs:208-246 | a segment paged in on demand holds its file bytes and zeros after them |
| Vma.SegmentPermissions | libkernel/src/memory/proc_vm/vmarea.rs:208-230 | the three flag bits are decoded independently of one another and of all other bits |
| Vma.SegmentPagesAreMinimal | libkernel/src/memory/proc_vm/vmarea.rs:232-246 | the area covers exactly the pages the segment touches |
| Vma.ShrinkKeepsBytes | libkernel/src/memory/proc_vm/vmarea.rs:417-448 | every address kept by a shrink denotes and faults in the same byte |
| Vma.ShrinkMapping | libkernel/src/memory/proc_vm/vmarea.rs:417-448 | a shrunk area has the region and permissions asked for, and its mapping is as long as the file bytes left, or none |
| Vma.ShrinkTwice | libkernel/src/memory/proc_vm/vmarea.rs:417-448 | shrinking in two steps is shrinking once |
| Vma.PiecesKeepBytes | libkernel/src/memory/proc_vm/memory_map/mod.rs:203-222 | of the pieces left of, in and right of the protected range, whichever has an address keeps its byte, and has the new permissions exactly in the range |
| Vma.PiecesCover | libkernel/src/memory/proc_vm/memory_map/mod.rs:203-222 | the pieces follow one another and cover exactly the area |
| Vma.CutCovers | libkernel/src/memory/proc_vm/memory_map/mod.rs:424-465 | what unmapping leaves of an area is exactly its addresses outside the hole, under its permissions |
| Vma.CutKeepsBytesIff | libkernel/src/memory/proc_vm/memory_map/mod.rs:424-465 | when every address left of a cut area denotes what it did, whatever the file |
| Vma.UnmapMiddleExample | libkernel/src/memory/proc_vm/memory_map/mod.rs:424-440 | with the middle page of three unmapped, the last shows the file's first page |
| Vma.AgreeIff | libkernel/src/memory/proc_vm/vmarea.rs:303-360 | two mappings show the same bytes in a region, whatever the files hold, if and only if they reach equally far into it and continue in the same file at the same offset |
| Vma.MergeKeepsBytesIff | libkernel/src/memory/proc_vm/memory_map/mod.rs:294-325 | merging two areas keeps every byte of both if and only if the first mapping's length already reaches the second's file bytes |
| Vma.SplitThenMergeLoses | libkernel/src/memory/proc_vm/vmarea.rs:375-397 | two file-backed halves of one area can always be merged, and doing so loses bytes |
| MemoryMaps.UnmappedAt | libkernel/src/memory/proc_vm/memory_map/mod.rs:378-467 | unmapping leaves nothing in the range, and elsewhere the piece of the area that was there with its permissions |
| MapAreas.UnmappedArea | libkernel/src/memory/proc_vm/memory_map/mod.rs:378-467 | the area, with its region and mapping, that every address belongs to after unmapping, read off the area it was in |
| MapAreas.UnmappedByte | libkernel/src/memory/proc_vm/memory_map/mod.rs:424-465 | the byte every address shows after unmapping, whatever the files: behind a cut at the front the file goes on where it was, for the old length; behind a hole it starts again at the old offset |
| MapAreas.InsertedArea | libkernel/src/memory/proc_vm/memory_map/mod.rs:290-329 | the area every address belongs to after insertion: which neighbours the new area merges with, on permissions, file and offset, how far the result reaches and whose mapping it has |
| MemoryMaps.InsertedPerms | libkernel/src/memory/proc_vm/memory_map/mod.rs:290-329 | insertion keeps the areas ordered and disjoint and sets the permissions of exactly its range |
| MemoryMaps.MprotectPerms | libkernel/src/memory/proc_vm/memory_map/mod.rs:168-227 | success if and only if one area holds the range, and then exactly the range has the new permissions; which area a failure has removed |
| MemoryMaps.MprotectFailureExample | libkernel/src/memory/proc_vm/memory_map/mod.rs:185-226 | protecting two adjacent areas at once fails and removes the first |
| MapBytes.UnmapKeepsBytesIff | libkernel/src/memory/proc_vm/memory_map/mod.rs:378-467 | unmapping keeps every byte of the rest of the map if and only if it cuts every area safely |
| MapBytes.JoinedBytesIff | libkernel/src/memory/proc_vm/memory_map/mod.rs:293-329 | merging with both neighbours keeps every byte of the map if and only if the surviving mapping agrees with that of the new area and of the absorbed next one |
| MapBytes.InsertKeepsBytesIff | libkernel/src/memory/proc_vm/memory_map/mod.rs:290-329 | insertion shows the new area in its range and the old map everywhere else if and only if the surviving mapping agrees with the new area and with what was there before in the absorbed next one, or, with none absorbed, every area is cut safely |
| MapBytes.InsertedAllBytesIff | libkernel/src/memory/proc_vm/memory_map/mod.rs:203-222 | inserting adjacent pieces in turn into a map that has nothing there shows each piece's own bytes and the rest of the map if and only if every insertion on the way is safe |
| MapBytes.MprotectBytesIff | libkernel/src/memory/proc_vm/memory_map/mod.rs:168-227 | a successful change of permissions keeps every byte of the map if and only if each piece of the area, inserted in turn into the map without it, is inserted safely |
| MapBytes.MprotectSamePermsIff | libkernel/src/memory/proc_vm/memory_map/mod.rs:203-222 | giving a range of a lone area the permissions it has keeps its bytes if and only if the first cut has no file bytes behind it |
| MapBytes.MprotectJoinExample | libkernel/src/memory/proc_vm/memory_map/mod.rs:189-200 | a whole area given its neighbour's permissions merges with it and reads as zeros |
| MapInPlace.MemoryMap.UnmapRegion | libkernel/src/memory/proc_vm/memory_map/mod.rs:378-467 | the loop over the areas equals the specified unmapping, removes exactly the range, and which byte every other address then shows |
| MapInPlace.MemoryMap.InsertAndMerge | libkernel/src/memory/proc_vm/memory_map/mod.rs:290-329 | which area every address then belongs to, with its region and mapping; exactly the range has the new permissions; and the other bytes are kept if and only if it is safe |
| MapInPlace.MemoryMap.ProtectRange | libkernel/src/memory/proc_vm/memory_map/mod.rs:168-227 | on success exactly the range has the new permissions, and every byte is kept if and only if all pieces are inserted safely; a failure leaves the map alone if and only if the range is invalid or its first address is unmapped |
| Kbuf.CopySlices | libkernel/src/memory/kbuf.rs:272-311 | how many elements two pairs of slices pass on, and every cell of the destination afterwards |
| Kbuf.SpliceFrom | libkernel/src/memory/kbuf.rs:188-269 | pending exactly when source empty or target full, and then registered with each that holds it up; otherwise the least of count, elements and room moves, capped by the longer first slice, from the front of one queue to the back of the other in order, none lost or repeated, and one reader and one writer are woken; it falls short if and only if the possible amount exceeds both first slices |
| Kbuf.MoveSlices | libkernel/src/memory/kbuf.rs:222-250 | the same for a positive amount both rings can take |
| Kbuf.Appended | libkernel/src/memory/kbuf.rs:272-311 | writing the vacant slices, wrapped or not, appends to the logical contents |
| Kbuf.ShortfallExample | libkernel/src/memory/kbuf.rs:272-311 | two rings that both wrap: two elements could move and one does |
| KbufWaiters.StepKeepsInv | libkernel/src/memory/kbuf.rs:49-269 | every supply, use, poll, drop and splice on one side of a ring keeps: registrations are in order, a waiting future knows its own for as long as it is queued, and a splice that found the side short is queued or woken |
| KbufWaiters.PollRegisters | libkernel/src/sync/waker_set.rs:124-137 | the first pending poll of a future puts its task at the back of the queue and later ones register nothing; a splice registers at every poll that finds the side short |
| KbufWaiters.SwallowsIff | libkernel/src/sync/waker_set.rs:56-61 | a wake-up reaches nobody although somebody is registered if and only if the front registration is of a splice whose task waits no more, or of a future that has been served and is not dropped |
| KbufWaiters.EntryLeaves | libkernel/src/sync/waker_set.rs:140-154 | a future's registration leaves the queue by a wake-up or the future's drop, a splice's only by a wake-up |
| KbufWaiters.UselessExactly | libkernel/src/memory/kbuf.rs:253-266 | a registration turns useless exactly when its task's wait ends with it queued, and of use again exactly when the task waits once more |
| KbufWaiters.SpliceEntryStays | libkernel/src/memory/kbuf.rs:253-266 | over every run a splice's registration is there until a wake-up takes it out, whatever becomes of the splice |
| KbufWaiters.SuppliesReach | libkernel/src/memory/kbuf.rs:83-93 | any number of supplies in a row wakes exactly the waiting tasks of that many registrations from the front |
| KbufWaiters.SwallowedSupplies | libkernel/src/memory/kbuf.rs:83-93 | behind k useless registrations a sleeping task is woken by supply k + 1 and by none before |
| KbufWaiters.WaiterSafety | libkernel/src/memory/kbuf.rs:49-269 | over every run from the start, a splice that found the side short sleeps only while registered, and if nobody splices a wake-up is swallowed only by a future that has been served and is not dropped |
| KbufWaiters.StockIsConserved | libkernel/src/memory/kbuf.rs:83-166 | over every run the elements or slots are those there were and those supplied, without those used, served or spliced away |
| KbufWaiters.BlockedSpliceIsReachable | libkernel/src/memory/kbuf.rs:251-266 | from a poll that found the side short until the next step of the splice, whatever others do, its task waits and is awake or registered |
| KbufWaiters.AbandonedSpliceExample | libkernel/src/memory/kbuf.rs:253-266 | a reader sleeps beside an element because an abandoned splice took its wake-up |
| WakerSets.WakerSet.Register | libkernel/src/sync/waker_set.rs:31-50 | joins the queue at the back under a number nobody has |
| WakerSets.WakerSet.Unregister | libkernel/src/sync/waker_set.rs:52-55 | leaves the queue, wherever it stands |
| WakerSets.WakerSet.PopFirst | libkernel/src/sync/waker_set.rs:57-61 | the waker under the lowest number is the one registered longest |
| WakerSets.WakerSet.TakeAll | libkernel/src/sync/waker_set.rs:64-68 | empties the set and gives its wakers in the order of registration |
| Mpsc.StepKeepsInv | libkernel/src/sync/mpsc.rs:38-136 | every step, with any number of futures, keeps order, nothing lost, when the end may be told, and who may be queued |
| Mpsc.RunKeepsInv | libkernel/src/sync/mpsc.rs:38-136 | the same over every legal run, with what one future at a time and no wasted wake-up add |
| Mpsc.ChannelSafety | libkernel/src/sync/mpsc.rs:38-56 | after any run, on its own steps: what the polls answered is a prefix of what was sent before the receiver went, the rest is queued, and a future is told the end only if every handle made has been dropped, nothing is queued and all was answered |
| Mpsc.SendersAreHandles | libkernel/src/sync/mpsc.rs:107-136 | over every run the counter is the handles there were and those cloned without those dropped |
| Mpsc.WakesExactly | libkernel/src/sync/mpsc.rs:93-136 | an accepted value wakes the future registered longest, the last sender to go wakes all that are registered, and nothing else wakes anybody |
| Mpsc.StrandedExactly | libkernel/src/sync/waker_set.rs:116-137 | a future is stranded exactly by a poll that finds nothing after its waker was called, until its own drop or a lucky poll |
| Mpsc.SingleConsumerNeverMisses | libkernel/src/sync/mpsc.rs:38-56 | with one future at a time, one that is asleep is registered, the queue is empty and a sender lives |
| Mpsc.QueuedValuesAreComeFor | libkernel/src/sync/mpsc.rs:93-104 | with any number of futures and no wasted wake-up, there are as many woken futures as queued values while anyone is registered |
| Mpsc.StolenWakeupExample | libkernel/src/sync/waker_set.rs:116-137 | two futures, one of which sleeps on a queued value with nobody else waiting |
| MpscChannel.Chan.Send | libkernel/src/sync/mpsc.rs:93-104 | the value joins what was sent, unless the receiver is gone, and the future registered longest is woken |
| MpscChannel.Chan.CloneSender | libkernel/src/sync/mpsc.rs:107-118 | one more handle, and nothing else changes |
| MpscChannel.Chan.DropSender | libkernel/src/sync/mpsc.rs:121-136 | once the last sender is gone nobody is asleep but who was stranded already |
| MpscChannel.Chan.Poll | libkernel/src/sync/waker_set.rs:116-137 | a value is the oldest not yet received; the end means no sender and everything received; pending means neither is to be had, with the future registered |
| MpscChannel.Chan.DropFuture | libkernel/src/sync/waker_set.rs:146-154 | taking a future's number out of the map takes the future out of the queue |
| MpscChannel.Chan.WakeAll | libkernel/src/sync/condvar.rs:49-57 | empties the set and calls every waker it held |
| ProcessTree.StepKeeps | src/process/exit.rs:19-77 | every lock section of clone and exit keeps: nobody is among the children of a process that is not its parent, whoever has been listed and has not left is among its parent's children, a process being built has the parent its clone chose and is listed nowhere, and the parent an exit has read is the parent still or has handed its children over |
| ProcessTree.BuildOk | src/process/thread_group.rs:126-142 | creating a group with its parent link and identifier, before the parent lists it, keeps the tree |
| ProcessTree.InsertOk | src/process/thread_group.rs:144-146 | listing the group under the parent its clone chose, whatever happened in between, keeps the tree |
| ProcessTree.CloneEndsUnder | src/process/clone.rs:67-82 | whatever runs between the sections of a clone, the new process ends active, with the caller as parent or the parent the caller had when the clone began, and listed there and nowhere else |
| ProcessTree.ParentMoves | src/process/exit.rs:60-75 | a process changes parents exactly when its parent hands its children over while it is among them, and then to init |
| ProcessTree.DisorderExactly | src/process/exit.rs:60-77 | a process lingers exactly after a stale leave, for good, and is stranded exactly after a late insertion, until it leaves |
| ProcessTree.RunDisorder | src/process/exit.rs:19-77 | the same over every run and interleaving |
| ProcessTree.TreeSafety | src/process/exit.rs:19-77 | over every run from boot, children sets and parent links agree if and only if no leave was stale, and every process listed and not gone climbs to init if and only if no late one is still there |
| ProcessTree.StaleMeans | src/process/exit.rs:19-24 | a leave is stale only if the parent read has handed its children to init, where the process then stays listed |
| ProcessTree.RacingExitsLinger | src/process/exit.rs:19-77 | for every process and its parent: an order of their exits that leaves the process among init's children |
| ProcessTree.RacingCloneStrands | src/process/thread_group.rs:125-149 | for every process and its parent: an order of a clone and an exit that strands the new process, although it was created before the exit began |
| ProcessTree.Processes.AddChild | src/process/thread_group.rs:125-149 | the new group has the next identifier, the given parent and no children, is active, and is added to that parent's children; nothing else changes |
| ProcessTree.Processes.Clone | src/process/clone.rs:57-92 | which flags are refused; otherwise the new group is a child of the caller, or of the caller's parent on request, and listed there, also when the memory copy fails |
| ProcessTree.Processes.ExitGroup | src/process/exit.rs:11-87 | an exit with nothing in between hands exactly its children to init, takes the process out of every children set, changes no other link and makes nobody linger; a second exit changes nothing |
| ProcessTree.Processes.Reparent | src/process/exit.rs:60-75 | the loop hands every child, and no other process, to init |
| BlockBuffer.Ramdisk.Read | libkernel/src/fs/blk/ramdisk.rs:56-80 | reads exactly the bytes of the blocks, or reports out of bounds and leaves the buffer |
| BlockBuffer.Ramdisk.Write | libkernel/src/fs/blk/ramdisk.rs:84-102 | overwrites exactly the bytes of the blocks, or reports out of bounds and leaves the disk |
| BlockBuffer.TouchedBlocks | libkernel/src/fs/blk/buffer.rs:35-42 | the computed blocks hold the byte range, and are on the device if and only if the range is |
| BlockBuffer.ReadAt | libkernel/src/fs/blk/buffer.rs:28-52 | succeeds if and only if the byte range is on the disk, and then returns exactly those bytes |
| BlockBuffer.WriteAt | libkernel/src/fs/blk/buffer.rs:79-107 | succeeds under the same condition and changes exactly those bytes, including inside partly covered blocks |
| FdTable.Search | src/process/fd_table.rs:145-163 | the first free slot from a hint, with none free before it |
| FdTable.InsertTakesLowest | src/process/fd_table.rs:78-89 | insert takes the lowest free descriptor although it starts at the hint, changes no other, and fails exactly when the full table has reached the limit |
| FdTable.DupTakesLowest | src/process/fd_table/dup.rs:9-18 | dup is refused exactly for a descriptor not open or a full table, and otherwise takes the lowest free descriptor and shares the file with clear flags |
| FdTable.Table.Remove | src/process/fd_table.rs:106-118 | closing empties that descriptor and no other |
| FdTable.Table.Dup3 | src/process/fd_table/dup.rs:20-51 | succeeds exactly for distinct descriptors, known flags and an open source, and changes only the target |
| FdTable.Table.CloneForExec | src/process/fd_table.rs:123-142 | exactly the close-on-exec descriptors are gone |
| FdTable.StepKeepsValid | src/process/fd_table.rs:78-163 | every operation keeps all descriptors below the hint in use |
| FdTable.HintedSearchIsLinear | src/process/fd_table.rs:145-163 | after any run the hinted search finds what a search from zero finds |
| FdTable.Descriptors.Insert | src/process/fd_table.rs:78-89 | opens the file under the lowest unused descriptor and touches no other; refused if and only if the table has reached its limit with every slot in use |
| FdTable.Descriptors.Dup | src/process/fd_table/dup.rs:9-18 | a bad descriptor if and only if it is not open, too many files if and only if the table is full; otherwise the lowest unused one gets the file with clear flags |
| FdTable.Descriptors.FindFreeFd | src/process/fd_table.rs:145-163 | returns the searched slot and moves the hint past it, or fails and leaves the hint |
| FdTable.Descriptors.Remove | src/process/fd_table.rs:106-118 | the descriptors in use are those before without that one, whose file is returned |
| FdTable.Descriptors.Dup3 | src/process/fd_table/dup.rs:20-51 | each error if and only if its condition holds; otherwise exactly the target changes |
| Timer.AddThenSub | src/drivers/timer/mod.rs:67-96 | adding a duration and subtracting keeps the seconds and loses less than one tick and one nanosecond, never gaining |
| Timer.SubThenAdd | src/drivers/timer/mod.rs:67-96 | subtracting and adding back never passes the later instant, misses at most one tick up to one gigahertz, and is exact if and only if the remainder is whole nanoseconds |
| Timer.SubAhead | src/drivers/timer/mod.rs:84-96 | the difference to an instant that lies ahead is zero, and it is zero otherwise only below one nanosecond |
| Timer.LostTickExample | src/drivers/timer/mod.rs:67-96 | one tick at three ticks a second is lost |

## Left out

- Machine integers: addresses, counts, ids and ticks are unbounded, so overflow, the width of the reference count and the reuse of waker or thread group ids are not modelled.
- CarveRegion: takes an aligned, unclaimed stretch as given; the re-alignment before the loop, which moves the end of the region as well as its start, and the marking of reserved frames are not modelled.
- Intrusive free lists: the linked list through the frame metadata is a sequence.
- Growing the region lists: the allocator is modelled in its initial setting, where growth is not permitted and a list without a spare slot makes `Alloc` and `Free` report lack of memory.
- AllocThenFree: needs non-empty reservations and a positive size, since an empty region has no addresses to tell lists apart by.
- Collect: needs both lists normalised and without empty regions, as insertion of non-empty regions leaves them.
- Copy-on-write beside `mprotect`, `munmap` and process teardown: mappings are only added or re-protected, never removed; page-table encoding and TLB maintenance are absent.
- HandleDemandFault: whether the access is allowed, whether the page has file contents, and the contents a read gives are parameters.
- CloneAsCow: the page tables the child needs are always to be had; the kernel gives up before the first area, or stops, when they are not.
- SetupUserStack: the only mapping error is a lack of frames, and the bytes `AT_RANDOM` points at are whatever the stack holds there.
- StackRoundTrip: needs strings without a zero byte, which is what the kernel's C strings are, and an auxiliary vector of pairs without a terminator of its own.
- DemandPagingLoadsSegment: needs the file offset to be at least the page offset of the address; the kernel's subtraction would wrap otherwise.
- InsertAndMerge: the areas are a sequence in address order, where the kernel has a tree keyed by start address; that growing an area by part of a page panics, and what becomes of the pages already mapped, are not modelled.
- The search for a free range, `mmap` placement and fault permission checks.
- SpliceFrom: the order in which the two locks are taken is not modelled, as one attempt is one step.
- WaiterSafety: each side of a ring by itself; that a splice waits on one side of each of two rings shows only as wake-ups from elsewhere.
- Threads inside a group, signals and exit notification in `Clone` and `ExitGroup`; a process whose parent group has been freed.
- Dup3: a negative target descriptor.
- Device errors other than an access out of bounds; the cached object access of the block buffer.
- The scheduler, signal masks, path handling, FAT32, drivers and boot code.
