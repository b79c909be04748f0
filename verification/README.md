# A verified model of the kernel

This project models the state-changing cores of a small x86-64 teaching kernel with a network
stack, and of the boot-loader installer shipped with it, and proves what each of them promises.
`dafny verify dfyconfig.toml` checks everything.

| file | what it models |
|---|---|
| Basics.dfy | what several modules share |
| PhysMem.dfy | the physical frame allocator: unclaimed ranges, a free list kept inside the free frames, `frame_state` |
| PageTables.dfy | page-table words and the 4-level tree of tables embedded in frames; the hardware walk |
| PageMapping.dfy | mapping a page, splitting 1 GB and 2 MB entries, finding a leaf, `user_buffer_ok`, clearing a page, a new address space |
| Fork.dfy, Teardown.dfy | the deep copy of an address space, and giving its tables back |
| Vme.dfy | the linked list of mapped regions, `mmap`, and `munmap` over the list and the page tables together |
| Lifetime.dfy | a private address space from `init_thread` through page faults, `mmap` and `munmap` to `fini_thread`, and what it owes the frame allocator |
| Scheduler.dfy | threads on any number of cores: ready queue, deferred queueing in `post_switch`, conditions, reaper, `n_active` |
| SchedHistory.dfy | what the calls of its threads come to in whole runs: yield, stop, wait, notify for all, turns in the ready queue |
| Sync.dfy | `Semaphore` and `BlockingLock` over the epoch of `Condition` |
| SchedSync.dfy | the semaphore and the lock run on the scheduler's own conditions and switches, step by step runs of the semaphore model |
| Heap.dfy | the boundary-tag heap in one array of words |
| Queue.dfy | the intrusive FIFO |
| VirtQueue.dfy | the virtio-net transmit and receive queues against a conforming device, and the fake receive ring |
| UndoLog.dfy | the one-block write-back cache and the undo log of the installer |
| Checksum.dfy, NetProto.dfy, NetStack.dfy | the Internet checksum; Ethernet, ARP, IPv4, ICMP echo and UDP frames as functions, and the code that fills and reads them |
| ArpCache.dfy, ArpNet.dfy | the 8-slot ARP cache against a recency list; ARP among many hosts over an unreliable network |
| BlockIo.dfy | chunked reads through the RAM disk and the data blocks of an ext2 i-node |

How the model is set up:

- Memory is a map from frame numbers to 512 words. A word is a decoded page-table entry, a link
  of the free list, or data; reading a frame as a page table requires entries in it, so a proof
  that teardown reads only entries is a proof that it never reads a freed frame.
- A page-table tree is a map from paths (root, slot, slot, ...) to frames. Its invariant says the
  frames are distinct and are exactly the tables reached from the root.
- What the processor lets a program do with a page (`PageTableTree.Access`) is the conjunction of
  the W and U bits of all entries on the way to it; the entries above the leaf are its ceiling
  (`PageTableTree.Ceiling`).
- The scheduler, the synchronization objects and the ARP network are transition systems: a step
  is one spin-locked section or one context switch of one core, and theorems hold in every state
  any sequence of steps reaches. The kernel leaves a thread only at `context_switch_`
  (kernel/pit.cc does not preempt kernel mode), so the code between two such points of one core
  is not interrupted on that core; `reap` and `make_thread` may still block in the heap lock, so
  what they hold belongs to the thread.
- The virtqueue device is the environment: its two turns are to take the next published entry and
  to complete any entry it holds. The driver's calls are made of turns too (reclaim one completion,
  publish one slot; hand up or discard one packet); a run is any sequence of turns of both sides.
- Where a loop or an in-place algorithm is in the source, it is a method over an array, a class or
  linked nodes; pure specifications stand beside it and carry the theorems.
- Out-of-memory stops the kernel in the source; here the operation reports it, and only then.
- What a page fault reads from a file is a parameter; what the handler panics on it refuses.
- 64-bit and 16-bit wrap-around is written out where it can occur (ring indices, file offsets, the
  end address of `munmap`, the checksum's 32-bit sum).

What a caller must supply (each is a `requires` of the member that needs it): usable memory ranges
are page aligned, non-empty, disjoint and below 256 MiB; the page-table frames below a root that is
torn down are in use, and for the accounts of a whole life every usable frame is other than frame 0
and below 128 MiB; private page faults are below 2^47, where the processor has private pages; `mmap`
and `munmap` lengths are at most 2^64-4096, because rounding up wraps; the pages that the mapped
pages of a range given to `munmap` lead to belong to the page-table tree and are not backed by its
frames (`MemoryMapping.LeavesClearSuffices` says when all are); `malloc` sizes are at most 2^64-8
and the heap has fewer than 2^31 words, because `free` keeps indices in an `int`; `free` gets null,
the zero-size pointer or a live block; ICMP echo replies fit the 1514-byte buffer; the ARP cache
sees fewer than 2^64 uses; a file read through an i-node lies within direct and single-indirect
reach and its blocks lie on the device. A zero block pointer reads disk block 0, in the code and in
the model.

Findings about the code, kept as it is:

- A receive completion shorter than the 12-byte header is consumed without giving its buffer back.
  The 8 receive buffers are conserved exactly as long as no such completion is consumed
  (`VirtioReceive.RunFromStart`, `VirtioReceive.ShortCompletion`).
- `mmap` grants private mappings up to the direct map, which starts in the upper half; `find_pte`
  walks the upper half, which all threads share, for addresses from 2^47 up, and drops the address
  bits from 48 up. `munmap` of such a range takes pages outside the range away; it stays inside
  exactly when the range ends at or below 2^47 or lies in the upper half (`MemoryMapping.OnlyTheRange`,
  `MemoryMapping.UpperMapping`, `MemoryMapping.WideMapping`).
- `user_buffer_ok` judges page numbers the same way, so it accepts buffers at addresses no mapping
  can have (`PageMapping.FarBuffer`). What it accepts is usable, for all page tables whose upper
  entries keep no user out, exactly when the buffer ends at or below 2^47 or lies in the upper half
  (`PageMapping.AcceptedMeansAccessible`).
- `user_buffer_ok` looks at the user bit of the leaf only (`PageMapping.KernelOnlyPath`). In the private
  half that is enough, because no entry there withholds a right, from `init_thread` on
  (`PageMapping.InitThread`, `PageMapping.Map`, `PageMapping.PrivateAccessible`).
- On a device whose size is not a whole number of blocks, a read that meets the cut-off block fails
  and changes the cached block in memory. Exactly on such reads the program's view of the device can
  change (`LoggedDevice.FailedReadHarmless`, `LoggedDevice.SpoiltCache`). The installer then gives
  up, and its undo is unharmed (`LoggedDevice.Device.UndoAll`, `LoggedDevice.Device.Install`).
- `checksum16` adds in 32 bits: it is the RFC's checksum for every buffer of a length exactly when
  that is at most 131,074 bytes (`InternetChecksum.CorrectLengths`). All its callers stay below.
- Frame 0 is handed out when it is usable, but `free` ignores it (`PhysicalMemory.PhysMem.Free`),
  and the teardown gives back no table at frame 0 or at or above 128 MiB, nor any table below one. It
  frees all private tables exactly when there is none such (`AddressSpaceTeardown.AllFreed`,
  `AddressSpaceTeardown.UnfitKept`, `AddressSpaceTeardown.HighTable`).
- The hole case of `munmap` leaves its predecessor pointer at the node before the new tail. The
  model keeps this; it is harmless because no later region can overlap the range
  (`VmeLists.VmeList.CutNode`, `MemoryMapping.RemoveRange`).
- `read_all` of zero bytes past the end returns 0, although the comment beside it announces -1
  (kernel/block_io.h, `LayeredRead.ReadAll`).
- Two live pages may name one frame; clearing both frees it once, because the allocator ignores
  the second free (`PageUnmapping.UnmapsBoth`, `PhysicalMemory.PhysMem.Free`).

## Model

| member | source | states |
|---|---|---|
| PhysicalMemory.UsableRangesGood | kernel/physmem.cc:106-130 | for every memory map of page-aligned, disjoint usable regions below 256 MiB, the ranges built are page aligned, non-empty, disjoint, and cover exactly the usable frames |
| PhysicalMemory.PhysMem.constructor | kernel/physmem.cc:106-130 | at start every usable frame is in exactly the unclaimed ranges, none is free-listed or in use |
| PhysicalMemory.PhysMem.Alloc | kernel/physmem.cc:132-175 | succeeds exactly when a frame is left, and otherwise no frame is left and nothing changes; the frame was not in use, is usable, and is the only frame written: all its 512 words are zero; every usable frame stays in exactly one of unclaimed, free list, in use |
| PhysicalMemory.PhysMem.ZeroWords | kernel/physmem.cc:171-173 | the loop zeroes the given frame and writes no other |
| PhysicalMemory.PhysMem.PopFreeList | kernel/physmem.cc:139-145 | takes the first frame of the list linked through word 0 of its frames; the rest stays linked |
| PhysicalMemory.PhysMem.TakeFromRange | kernel/physmem.cc:146-165 | takes the first frame of the first range; exactly that frame stops being unclaimed |
| PhysicalMemory.TakeFirstFrame | kernel/physmem.cc:146-165 | shrinking or dropping the first range removes exactly its first frame and keeps the ranges aligned and apart |
| PhysicalMemory.PhysMem.Free | kernel/physmem.cc:177-201 | freeing a frame in use moves it, and nothing else, to the head of the free list; freeing frame 0, a frame twice, or one never handed out changes nothing |
| PhysicalMemory.PushKeepsLinks | kernel/physmem.cc:189-200 | linking a frame in front keeps the in-frame list acyclic and complete |
| PhysicalMemory.PhysMem.PaInUsableRange | kernel/physmem.cc:39-63 | true exactly when the whole frame at the address lies in one usable region of the memory map |
| PhysicalMemory.UnclaimedSplit | kernel/physmem.cc:146-165 | the unclaimed frames are those of the first range or of the others |
| PteBits.MakeEntryDecodes | kernel/vmm.cc:54-57 | the 64-bit word make_entry builds decodes to the entry the model stores: P set, PS clear, the W, U and frame number asked for, for every 36-bit frame number |
| PteBits.SplitDecodes | kernel/vmm.cc:281-308 | so do the words of a split: for every aligned 1 GB or 2 MB entry and every index the stored word decodes to the model's split entry, the frame number by exact addition |
| PteBits.ZeroDecodes | kernel/vmm.cc:447-447 | the word a cleared entry holds decodes to the absent entry |
| PteBits.JoinNumbers | kernel/vmm.cc:299-303 | words without a common bit add up as numbers |
| PteBits.MakeEntryWord | kernel/vmm.cc:54-57 | as a number the word is the frame number times 4096, plus 1, plus 2 for W, plus 4 for U |
| PageTableTree.AliasNode | kernel/vmm.cc:353-358 | a walk uses the low 36 bits of a page number only |
| PageTableTree.IndicesDetermine | kernel/vmm.cc:60-62 | two page numbers with the same four 9-bit indices are equal |
| PageTableTree.Recompose | kernel/vmm.cc:60-62 | the four indices of a page number give it back |
| PageTableTree.WalkReaches | kernel/vmm.cc:313-377 | a walk that reaches a table of the tree continues from that table |
| PageTableTree.WalkElsewhere | kernel/vmm.cc:313-337 | changing one table word changes no walk that does not pass through it |
| PageTableTree.AttachKeepsTree | kernel/vmm.cc:281-337 | hanging a new table below an entry gives again a tree of distinct table frames |
| PageTableTree.AttachKeepsWalks | kernel/vmm.cc:281-337 | and no page changes its translation when the new table translates like the old entry |
| PageTableTree.SplitTranslates | kernel/vmm.cc:281-308 | the 512 entries of a split 1 GB or 2 MB entry translate every page below it as before: frame, W and U |
| PageTableTree.LeafWrite | kernel/vmm.cc:313-337 | writing a leaf word changes the translation of exactly its own page and keeps the tree |
| PageMapping.FillSplit | kernel/vmm.cc:293-303 | the split loop fills all 512 entries with consecutive frames and the old W and U |
| PageMapping.SplitLargeEntry | kernel/vmm.cc:281-308 | replaces the entry by a pointer to a fresh frame that is split; no other word changes; it fails only when no frame is left, and then changes nothing |
| PageMapping.SplitKeepsSpace | kernel/vmm.cc:281-308 | after a split the page tables are a tree of distinct frames and every page translates as before |
| PageMapping.EmptyKeepsSpace | kernel/vmm.cc:330-333 | hanging a zeroed table below an absent entry keeps tree and translation |
| PageMapping.EmptyKeepsRights | kernel/vmm.cc:330-333 | and takes no right from any page: the W and U allowed by the entries above the leaf are as before for every page number |
| PageMapping.SplitKeepsRights | kernel/vmm.cc:281-308 | so does a split |
| PageMapping.Descend | kernel/vmm.cc:313-337 | one level down: splits or adds a table when needed; tree, leaf and rights of every page are unchanged, also when it fails, which it does only when no frame is left; it makes no large page |
| PageMapping.Map | kernel/vmm.cc:313-337 | for every page number: the translation (frame, W, U; huge leaves included) changes at exactly the page its low 36 bits name and nowhere else, also when a 1 GB and then a 2 MB entry are split on the way; the result is a tree of distinct table frames, and the frames newly in use are exactly its new tables; it fails only when no frame is left, and then no translation has changed |
| PageMapping.MapGrants | kernel/vmm.cc:313-337 | for the processor, which takes W and U as the conjunction over all levels: the page mapped has exactly the rights asked for, as far as the entries on its way allowed them before (all, where none withheld any), and every other page has the rights it had |
| PageMapping.FindPte | kernel/vmm.cc:353-377 | finds the leaf entry exactly when a present 4 KB leaf exists, and then it is the word that translates the page; without huge pages a miss means the page is unmapped |
| PageMapping.UserBufferOk | kernel/vmm.cc:384-411 | true exactly when the buffer lies in [4096, hhdm) without wrapping and for each of its page numbers a present user leaf lies where the low 36 bits lead; for length 0 exactly when the address is below hhdm |
| PageMapping.AcceptedMeansAccessible | kernel/vmm.cc:353-411 | such leaves make every address of the buffer accessible to the user, for all page tables whose upper entries keep no user out, exactly when it ends at or below 2^47 or lies in the upper half |
| PageMapping.AccessibleExactly | kernel/vmm.cc:384-411 | within those bounds an accepted buffer is the user's exactly when no entry above its leaves keeps users out |
| PageMapping.PrivateAccessible | kernel/vmm.cc:384-411 | in an address space whose private half withholds no right every accepted buffer that ends at or below 2^47 is the user's |
| PageMapping.KernelOnlyPath | kernel/vmm.cc:384-411 | user_buffer_ok looks at the leaf alone: page tables with a user leaf below a kernel-only entry |
| PageMapping.FarBuffer | kernel/vmm.cc:384-411 | the 8 bytes at 2^48+4096 are accepted wherever the page at 4096 is a user page, although no mapping can be at their address |
| PageMapping.FullTree | kernel/vmm.cc:353-377 | there are page tables in which every page is a user page, so nothing but the bound can make a buffer safe |
| PageMapping.OutsideKeepsTree | kernel/vmm.cc:313-377 | memory changes outside the table frames change no translation |
| PageMapping.OutsideKeepsRights | kernel/vmm.cc:313-377 | nor the rights of any page |
| PageMapping.ClearPage | kernel/vmm.cc:442-454 | the page named by the low 36 bits of the number loses its leaf entry, every other page keeps its translation and its rights, the frame goes back to the allocator |
| PageMapping.WalkIsLeaf | kernel/vmm.cc:353-377 | without large pages the translation of a page is its leaf entry |
| PageMapping.InitThread | kernel/vmm.cc:793-810 | a new root maps nothing in the lower half, where no entry withholds a right, and shares the upper half of the common root; fails only when no frame is left |
| AddressSpaceFork.ClonePages | kernel/vmm.cc:529-559 | copies every present user page below one parent table, at the same page numbers, on frames that were free; stops only at a huge page or with no frame left |
| AddressSpaceFork.CopyPage | kernel/vmm.cc:540-551 | one user page: fresh frame, equal contents, same W bit, mapped in the child only; fails only when no frame is left, and then the parent is as before |
| AddressSpaceFork.CopyFrame | kernel/vmm.cc:547-547 | memcpy of one page writes exactly the new frame |
| AddressSpaceFork.ForkFrom | kernel/vmm.cc:561-576 | over the whole lower half; the other outcomes are that no frame is left, and then the parent is as before, and that the parent has a huge user page |
| AddressSpaceFork.ParentKept | kernel/vmm.cc:529-576 | however far a fork got, every page of the parent translates, allows and reads as before |
| AddressSpaceFork.ForkResult | kernel/vmm.cc:529-576 | after a finished fork, for every lower-half page as the processor sees it: the child is mapped exactly when the parent has a present user leaf, with the rights of that leaf (the parent's own, where its upper entries withhold none), equal contents, a frame that was not in use before; the parent translates and reads as before |
| AddressSpaceTeardown.FreeTableTree | kernel/vmm.cc:478-504 | frees, once each and children first, exactly the table frames strictly below a table that are reached through frames other than 0 and below 128 MiB, and writes no frame that is already on the free list |
| AddressSpaceTeardown.FreePrivatePageTables | kernel/vmm.cc:508-527 | frees exactly the tables below the lower half of the root whose own frame and every table frame above it, below the root, is other than 0 and below 128 MiB, once each; the lower half is empty afterwards, upper-half entries and leaf frames are untouched |
| AddressSpaceTeardown.AllFreed | kernel/vmm.cc:495-498 | those are all the private tables but the root exactly when each of them has such a frame |
| AddressSpaceTeardown.UnfitKept | kernel/vmm.cc:495-498 | a table at frame 0, or at or above 128 MiB, stays in use with every table below it |
| AddressSpaceTeardown.HighTable | kernel/vmm.cc:518-522 | an address space with one table at 128 MiB below its root: nothing is freed |
| AddressSpaceTeardown.FramesWhole | kernel/vmm.cc:478-504 | the frames freed below the 512 entries of a table, and the table's own, are all that are freed at and below it |
| AddressSpaceTeardown.BranchesDisjoint | kernel/vmm.cc:478-504 | branches of different entries share no frame |
| AddressSpaceTeardown.BranchKept | kernel/vmm.cc:478-504 | freeing earlier branches leaves the next branch intact in memory, so no freed frame is read |
| Regions.UnmappedLookup | kernel/vmm.cc:622-720 | munmap removes exactly the requested addresses: every other address keeps its backing file and its position in the file, through the hole, front, tail and whole cases |
| Regions.UnmappedSorted | kernel/vmm.cc:622-720 | munmap keeps the list sorted, disjoint, non-empty and page aligned |
| Regions.CutLookup | kernel/vmm.cc:679-716 | the same for one region and one of the four cases, with 64-bit wrap of file offsets |
| Regions.LowestFit | kernel/vmm.cc:210-228 | the start of the first gap that is long enough fits, and nothing below it does |
| Regions.NoRoom | kernel/vmm.cc:226-228 | when even the last gap runs into the limit, no address fits |
| VmeLists.VmeList.FindGap | kernel/vmm.cc:212-224 | stops at the first gap that is long enough, or at the end of the list |
| Regions.NothingBelow | kernel/vmm.cc:210-224 | when no gap before the k-th region is long enough, nothing fits below it |
| Regions.InsertSorted | kernel/vmm.cc:210-239 | inserting a region into a gap keeps the list sorted and disjoint |
| Regions.InsertLookup | kernel/vmm.cc:210-239 | the new region becomes visible and no other address changes |
| VmeLists.VmeList.Find | kernel/vmm.cc:137-145 | finds the region of an address: null exactly when no region holds it |
| VmeLists.VmeList.Insert | kernel/vmm.cc:210-239 | -1 exactly when nothing fits; otherwise one region more, at the lowest address that fits; all others stay in place and every other address keeps its backing |
| VmeLists.VmeList.Link | kernel/vmm.cc:230-238 | links a new node between its neighbours |
| VmeLists.VmeList.CutNode | kernel/vmm.cc:663-716 | the linked list after one overlapping region is cut is the old one with that region replaced by what is left of it |
| VmeLists.VmeList.PunchHole | kernel/vmm.cc:680-694 | a hole: the old node keeps the front, a new node the back with its file offset moved |
| VmeLists.VmeList.Trim | kernel/vmm.cc:697-711 | front and tail: the node's bounds and offset change in place |
| VmeLists.VmeList.Drop | kernel/vmm.cc:714-716 | a fully covered node is unlinked |
| VmeLists.Clone | kernel/vmm.cc:147-165 | a copied list has fresh nodes and the same regions |
| PageUnmapping.UnmapsBoth | kernel/vmm.cc:667-677 | clearing two sets of pages one after the other is clearing their union |
| PageUnmapping.UnmapPages | kernel/vmm.cc:667-677 | every page number of the range takes the leaf entry its low 36 bits lead to away, all other pages keep entry and translation, and exactly the frames of the cleared leaves are freed |
| MemoryMapping.RoundUpAligned | kernel/vmm.cc:48-50 | page_align_up gives the least multiple of the page size that is long enough |
| MemoryMapping.Mmap | kernel/vmm.cc:581-617 | rejects length 0, unaligned offsets and anonymous-with-file; otherwise places the mapping at the lowest fitting address of the private or the shared list, which stays sorted and disjoint |
| MemoryMapping.Munmap | kernel/vmm.cc:622-720 | -1 exactly for an unaligned start, length 0, or a range outside [4096, hhdm), and then nothing changes; otherwise exactly the range is unmapped from the list, region by region as specified, and the entries and frames lost are exactly those that the mapped pages of the range lead to by their low 36 bits |
| MemoryMapping.OnlyTheRange | kernel/vmm.cc:353-382 | only pages whose address lies in the range lose their entries, whatever is mapped, exactly when the range ends at or below 2^47 or lies in the upper half |
| MemoryMapping.CanonicalPages | kernel/vmm.cc:667-677 | in a range that ends at or below 2^47 the pages cleared are exactly the mapped pages of the range, at their own addresses |
| MemoryMapping.WideMapping | kernel/vmm.cc:581-720 | mmap of 2^49 bytes is granted at 4096; unmapping the page at 2^48+4096 then clears the page at 4096, which stays in the list |
| MemoryMapping.UpperMapping | kernel/vmm.cc:581-720 | mmap of 2^48-4096 bytes is granted at 4096; unmapping the page at 2^47+4096 then clears the entry of the page at 0xffff_8000_0000_1000, which all address spaces share |
| MemoryMapping.StaysClearable | kernel/vmm.cc:667-677 | munmap leaves every other range as clearable as it was |
| MemoryMapping.LeavesClearSuffices | kernel/vmm.cc:622-720 | when no leaf leads to a page-table frame, every range can be unmapped, wherever the direct map is: over all page tables for every list mmap can build, over the private half for every list whose regions end below 2^47 |
| MemoryMapping.LeavesStayClear | kernel/vmm.cc:667-677 | munmap keeps that |
| MemoryMapping.RemoveRange | kernel/vmm.cc:651-717 | the loop over the linked list, proved against the list function and the page tables together |
| MemoryMapping.CoveredMeansMapped | kernel/vmm.cc:655-677 | the pages cleared are the pages of the range that some region holds |
| AddressSpaceLifetime.Lifetime | kernel/vmm.cc:725-841 | wherever the direct map is: init_thread, then any sequence of mmap, munmap and private page faults, then fini_thread: exactly the frames are in use again that were before the thread started; it ends early only without frames, at a fault on a page that is mapped already or lies in no region, or when a private mapping ends above 2^47, and that only when the lengths asked for add up to more than 2^47-4096 bytes |
| AddressSpaceLifetime.MapLow | kernel/vmm.cc:210-239 | a private mapping takes the lowest range that fits, so the end of the list grows by at most the mapping's size |
| AddressSpaceLifetime.PageFault | kernel/vmm.cc:725-778 | a fault in a region maps exactly that page, usable and writable by the user for the processor, on a frame nobody used, with the data; refused exactly when the page is mapped already or lies in no region; fails only when no frame is left |
| AddressSpaceLifetime.FiniThread | kernel/vmm.cc:814-841 | frees every page of every region, every table and the root, each once, and nothing else |
| AddressSpaceLifetime.FreeMappedFrames | kernel/vmm.cc:439-454 | the page loop of one region: exactly its pages lose their frames |
| AddressSpaceLifetime.Unmap | kernel/vmm.cc:622-720 | munmap keeps the accounts: frames in use are those of others, the tables and the pages, no frame being two of these or two pages |
| AddressSpaceLifetime.MapRegion | kernel/vmm.cc:581-617 | so does mmap, and every mapped page lies in a region |
| AddressSpaceLifetime.FaultAccounts | kernel/vmm.cc:765-778 | so does a page fault |
| AddressSpaceLifetime.UnmapAccounts | kernel/vmm.cc:667-677 | clearing pages takes exactly their frames out of use |
| AddressSpaceLifetime.LoadPage | kernel/vmm.cc:175-208 | the page is filled with the data and no other frame is written |
| Scheduler.StepKeeps | kernel/thread.cc:28-257 | every step of every core keeps the invariant: each TCB is in exactly one place, queues name it once, n_active counts the threads |
| Scheduler.ExactlyOnePlace | kernel/thread.cc:74-178 | in every run on any number of cores each allocated TCB is in exactly one place (running on one core, in one core's switch, ready, waiting, in the reaper queue, parked idle, being made or reaped); no thread is on two cores |
| Scheduler.FreedStackUnused | kernel/thread.cc:28-39 | whenever reap frees a stack and TCB, no core runs on it or is switching away from it, and no queue or condition leads to it |
| Scheduler.ShutdownMeansAllReaped | kernel/thread.cc:28-39 | shutdown is reached only when every thread ever made has stopped, been freed and been counted out |
| Scheduler.LastOneShutsDown | kernel/thread.cc:35-37 | the reap() that counts out the last thread there is shuts down, and no other does |
| Scheduler.AssertionsHold | kernel/thread.cc:74-108 | the switch target is never the current thread, and exactly idle threads reach post_switch without an action |
| Scheduler.StepPick | kernel/thread.cc:129-149 | the step in which yield or wait takes the oldest ready thread keeps the invariant: the thread moves from the queue into the core's hand |
| Scheduler.StopToIdle | kernel/thread.cc:196-216 | with nothing ready, stop() takes this core's own idle thread, which is parked there and nowhere else |
| Scheduler.StepSwitch | kernel/thread.cc:143-147 | context_switch_ keeps the invariant: the old thread is afterwards only in the arriving thread's hands, in no queue |
| Scheduler.StepPost | kernel/thread.cc:74-108 | post_switch keeps the invariant for every action: the thread left behind goes to exactly one place |
| Scheduler.StepReapPop | kernel/thread.cc:29-32 | the step in which reap takes a stopped TCB keeps the invariant |
| Scheduler.StepReapDealloc | kernel/thread.cc:34-34 | freeing it keeps the invariant: it was in no other place, and n_active still counts it |
| Scheduler.StepReapCount | kernel/thread.cc:35-37 | counting it out keeps n_active equal to the threads left, and shutdown means none is |
| Scheduler.StepMakeBegin | kernel/thread.cc:153-157 | counting a thread before it exists keeps the invariant |
| Scheduler.StepMakeReady | kernel/thread.cc:159-178 | queueing the new thread keeps the invariant: it was in its maker's hands only |
| Scheduler.RunKeeps | kernel/thread.cc:237-257 | the invariant holds after any finite sequence of steps of all cores |
| SchedulerHistory.OnlyStoppedReaped | kernel/thread.cc:82-90 | in every run a thread that is in the reaper or being freed called stop() earlier in the run, its core then switched to another thread, and in every state since it has been on no core, not ready and in no condition |
| SchedulerHistory.YieldedIsReady | kernel/thread.cc:129-149 | in every run a thread that called yield() and has not returned is ready, in the hands of the core it left, or the next that some core switches to |
| SchedulerHistory.CallsKept | kernel/thread.cc:74-108 | in every run each thread is where the call it is in puts it, and a waiting thread becomes ready only after its condition was notified |
| SchedulerHistory.StepKept | kernel/thread.cc:28-257 | every step keeps that |
| SchedulerHistory.ReadyInTurn | kernel/thread.cc:135-149 | nobody overtakes: a thread that is ready with i others in front of it is the one that the (i+1)-st core to look for a thread takes |
| SchedulerHistory.NeverStuck | kernel/thread.cc:74-149 | in every run a core in the middle of a scheduler call has a next step |
| SchedulerHistory.NothingRefused | kernel/thread.cc:28-257 | and a thread running its own code may notify, yield to any ready thread, stop and start to wait |
| SchedulerHistory.ReapsAndMakes | kernel/thread.cc:28-257 | and reap and make threads, each call to its end |
| SchedulerHistory.WokenInTurn | kernel/condition.h:59-67 | a waiter with i others in front of it is the one that the (i+1)-st notify_one from now on wakes, unless a notify_all comes before |
| SchedulerHistory.NotifyAllReachesAll | kernel/condition.h:24-78 | in every run a thread that captured a condition's epoch before a notify_all is not in its queue afterwards, however late it came to be queued, until it has returned from wait() |
| Scheduler.StepToWaiting | kernel/condition.h:24-57 | a waiter whose epoch is still current is queued on its condition only after the switch away from it |
| Scheduler.StepNotifyOne | kernel/condition.h:59-67 | notify_one takes the oldest waiter and moves the epoch |
| Scheduler.StepNotifyAll | kernel/condition.h:68-78 | notify_all takes every waiter, each into one hand |
| SemaphoreModel.StepKeeps | kernel/semaphore.h:30-44 | every step of down, up and the scheduler keeps the semaphore invariant |
| SemaphoreModel.NoLostWakeup | kernel/semaphore.h:30-44 | in every run: while threads are parked, the count is at most the number of woken threads that have not retested |
| SemaphoreModel.UnitsKept | kernel/semaphore.h:30-44 | in every run the count is what the calls of up() in it added less what the calls of down() took |
| SemaphoreModel.DownTakesOne | kernel/semaphore.h:30-37 | a thread returns from down() by taking a unit and in no other way: it takes one for each of its calls, but for a call it is still in |
| SemaphoreModel.ParksOnlyAtZero | kernel/semaphore.h:30-44 | a thread parks only while the count is zero, whatever ran between its test and the end of its switch |
| SemaphoreOnScheduler.NoLostWakeup | kernel/semaphore.h:30-44 | the same on the scheduler itself, in every run with any number of cores and any other threads doing anything else: while threads wait on the semaphore's condition, the count is at most the number of threads that were woken and have not tested again; every waiter is in down() |
| SemaphoreOnScheduler.UnitsKept | kernel/semaphore.h:30-44 | on the scheduler itself too, the count is what up() added in the run less what down() took |
| SemaphoreOnScheduler.DownTakesOne | kernel/semaphore.h:30-37 | and each thread takes one unit for each of its calls of down(), but for a call it is still in |
| SemaphoreOnScheduler.TestGoesOn | kernel/semaphore.h:32-38 | in every run a thread at the test in down() can go on: it takes a unit exactly when there is one |
| SemaphoreOnScheduler.ParksOnlyAtZero | kernel/semaphore.h:30-44 | on the scheduler itself a thread enters the condition's queue only while the count is zero |
| SemaphoreOnScheduler.RunSimulates | kernel/semaphore.h:30-44 | every run of scheduler and semaphore together is a run of the semaphore model |
| SemaphoreOnScheduler.StepSimulates | kernel/thread.cc:28-257 | every step of every core is no step, one or two steps of the semaphore model, and keeps the invariant that ties each caller of down() to its place in the scheduler |
| SemaphoreOnScheduler.SwitchSeen | kernel/thread.cc:143-147 | one context switch may be two of its steps: the thread left is on its way to the queue, the thread switched to tests again |
| SemaphoreOnScheduler.SeePark | kernel/condition.h:24-57 | post_switch of a waiter whose epoch is current is the model's parking step |
| SemaphoreOnScheduler.SeeRequeue | kernel/condition.h:24-57 | post_switch of a waiter that a notify overtook is its requeueing step |
| SemaphoreOnScheduler.SeeUp | kernel/condition.h:59-67 | notify_one by up() is its step that pops the oldest waiter |
| SemaphoreOnScheduler.SeeWake | kernel/condition.h:59-78 | making a popped thread ready is its waking step |
| BlockingLockModel.StepRefines | kernel/blocking_lock.h:30-44 | each step of the lock is a step of a semaphore that starts at one |
| BlockingLockModel.StepKeepsOwner | kernel/blocking_lock.h:30-44 | the lock is taken exactly while one thread owns it |
| BlockingLockOnScheduler.MutualExclusion | kernel/blocking_lock.h:30-44 | on the scheduler itself, in every run with any number of cores and any other threads doing anything else: at most one thread owns the lock, it is taken exactly while one does, unlock() finds it locked, and when it is free with threads in its queue some woken thread is on its way to test it |
| BlockingLockOnScheduler.LockOwns | kernel/blocking_lock.h:30-44 | in every run a thread returns from lock() as the owner and in no other way, and owns the lock until it calls unlock() |
| BlockingLockModel.LockOwns | kernel/blocking_lock.h:30-44 | the same for the lock alone |
| BlockingLockOnScheduler.RunRefines | kernel/blocking_lock.h:30-44 | every run of the lock on the scheduler is a run of the semaphore on the scheduler |
| BlockingLockOnScheduler.StepRefines | kernel/blocking_lock.h:30-44 | each step of it is the same step of the semaphore, and keeps the one owner |
| BlockingLockOnScheduler.ParksOnlyWhileLocked | kernel/blocking_lock.h:30-44 | on the scheduler itself a thread enters the lock's queue only while the lock is taken |
| BlockingLockModel.MutualExclusionAndNoLostWakeup | kernel/blocking_lock.h:30-44 | in every run at most one thread owns the lock, and when it is free with threads parked some woken thread is still inside lock() and will retest |
| BlockTiling.MergeKeepsTiling | kernel/heap.cc:238-249 | joining two adjacent blocks keeps the array tiled exactly by even-sized blocks between the sentinels |
| BlockTiling.SplitKeepsTiling | kernel/heap.cc:202-204 | splitting a block keeps the tiling |
| BlockTiling.ReleaseKeepsNeighbours | kernel/heap.cc:217-250 | after free no two free blocks are adjacent |
| BlockTiling.ReleasedBlocks | kernel/heap.cc:217-250 | the released block has the size of what it swallowed; every other block is as before |
| BlockTiling.AllFreeIsOne | kernel/heap.cc:217-250 | when nothing is taken between the sentinels there is one free block of len-4 words |
| FreeList.UnlinkKeepsList | kernel/heap.cc:76-90 | remove leaves an acyclic list, correctly linked both ways, without the block, and changes only link words of list members |
| FreeList.PushKeepsList | kernel/heap.cc:92-102 | makeAvail puts the block in front of a correctly linked list |
| BlockTiling.InsideOne | kernel/heap.cc:64-66 | a word strictly inside one block is no block's first or last word |
| BoundaryTagHeap.Heap.Init | kernel/heap.cc:121-152 | the heap starts as one free block of len-4 words between two taken sentinels, at addresses inside the range given, of which it leaves less than 16 bytes at either end |
| BoundaryTagHeap.Heap.Remove | kernel/heap.cc:76-90 | unlinks one block in the array |
| BoundaryTagHeap.Heap.MakeAvail | kernel/heap.cc:92-102 | tags and links one block in the array |
| BoundaryTagHeap.Heap.MakeTaken | kernel/heap.cc:104-108 | tags one block in the array |
| BoundaryTagHeap.Heap.Search | kernel/heap.cc:174-197 | 0 exactly when no free block is big enough; otherwise the smallest (first among equals) of the fitting blocks seen before an exact fit or the twentieth fitting block |
| BoundaryTagHeap.Heap.Malloc | kernel/heap.cc:156-215 | null exactly when no free block has room for the bytes asked for beside its two tags; otherwise the payload of the best fit, and the blocks change only there; no live payload is written; tiling, tags and free list stay correct |
| BoundaryTagHeap.Heap.Carve | kernel/heap.cc:199-213 | takes the block off the list and puts the rest back exactly when at least 4 words are left |
| BoundaryTagHeap.Heap.Neighbours | kernel/heap.cc:64-66 | left and right find the adjacent blocks through the tags |
| BoundaryTagHeap.Heap.Free | kernel/heap.cc:217-250 | the block joins the free blocks on either side; no other live payload is written; null and the zero-size pointer change nothing |
| BoundaryTagHeap.Heap.Release | kernel/heap.cc:233-249 | the body of free for a live block |
| BoundaryTagHeap.Heap.Absorb | kernel/heap.cc:238-247 | an available neighbour leaves the list, a taken one stays |
| BoundaryTagHeap.TakeFront | kernel/heap.cc:203-204 | malloc's split leaves a correct heap |
| BoundaryTagHeap.TakeWhole | kernel/heap.cc:205-207 | malloc of a whole block leaves a correct heap |
| BoundaryTagHeap.PutBack | kernel/heap.cc:238-249 | free's joined block leaves a correct heap |
| BoundaryTagHeap.MallocAddsOne | kernel/heap.cc:156-215 | malloc adds exactly one live block, which has room for the bytes and at most 2 words more than the smallest block that has (even, 4 words at least, 2 of them tags), and moves or resizes no other |
| BoundaryTagHeap.TightestTaken | kernel/heap.cc:174-197 | of at most 20 free blocks malloc takes one as small as any with room, and always one smaller than those with room in front of it on the list |
| BoundaryTagHeap.FreeRemovesOne | kernel/heap.cc:217-250 | free removes exactly that live block |
| BoundaryTagHeap.PayloadUsable | kernel/heap.cc:121-170 | payloads are 16-byte aligned, at least as large as requested and inside the array |
| BoundaryTagHeap.PayloadsDisjoint | kernel/heap.cc:156-215 | a payload shares no word with any other block |
| BoundaryTagHeap.PayloadWritesKeepHeap | kernel/heap.cc:92-108 | programs writing only inside live payloads cannot damage the heap |
| BoundaryTagHeap.AllFreedIsInitial | kernel/heap.cc:217-250 | once nothing is live, in whatever order it was freed, the heap is the initial single free block again |
| IntrusiveQueue.Queue.Add | kernel/queue.h:28-38 | appends the element, whatever link it carries |
| IntrusiveQueue.Queue.Remove | kernel/queue.h:40-55 | takes the oldest element; null exactly when empty |
| IntrusiveQueue.Queue.RemoveAll | kernel/queue.h:57-64 | empties the queue and returns all elements still chained in order |
| IntrusiveQueue.FirstInFirstOut | kernel/queue.h:28-64 | over every history, what left followed by what is there is what was added, in order |
| Rings.FlightCount | kernel/virtio_net.cc:416-447 | the slots published, held and completed number at most 8, and 8 exactly when all are in flight |
| VirtioTransmit.ReclaimKeeps | kernel/virtio_net.cc:416-433 | reclaiming one completion keeps the queue invariant across 16-bit wrap |
| VirtioTransmit.PublishKeeps | kernel/virtio_net.cc:449-483 | publishing a free slot keeps it |
| VirtioTransmit.TakeKeeps | kernel/virtio_net.cc:449-483 | the device taking the next entry keeps it, and finds the frame sent in that place |
| VirtioTransmit.CompleteKeeps | kernel/virtio_net.cc:416-433 | the device completing any entry it holds keeps it |
| VirtioTransmit.TransmitQueue.constructor | kernel/virtio_net.cc:396-414 | the initial state of every run: empty rings, all slots free, on arrays of its own |
| VirtioTransmit.TransmitQueue.ReclaimAll | kernel/virtio_net.cc:416-433 | every completion is reclaimed; nothing published or held is touched |
| VirtioTransmit.TransmitQueue.ReclaimOne | kernel/virtio_net.cc:419-432 | one turn of its loop is the driver's reclaim turn |
| VirtioTransmit.TransmitQueue.PublishSlot | kernel/virtio_net.cc:463-483 | filling and publishing the slot found is the driver's publish turn |
| VirtioTransmit.TransmitQueue.FindFree | kernel/virtio_net.cc:435-447 | -1 exactly when pending is 8; otherwise a slot not in use |
| VirtioTransmit.TransmitQueue.Send | kernel/virtio_net.cc:449-483 | accepted exactly for 1 to 2048 bytes with fewer than 8 entries outstanding at the device; frames keep their order and no buffer the device owns is written; it is made of the turns below, between which the runs let the device run |
| VirtioTransmit.FramesInOrder | kernel/virtio_net.cc:416-483 | in every run from the start, the device taking turns anywhere between two turns of the driver: the queue is in order, and the device has read exactly the frames sent, each behind a zero header, in the order in which they were sent |
| VirtioTransmit.HeldUntouched | kernel/virtio_net.cc:416-483 | in every run a buffer the device holds keeps its contents until the device completes it |
| VirtioTransmit.OwnedBuffersUntouched | kernel/virtio_net.cc:416-483 | no turn writes a published or held buffer, and no turn of the device takes away a slot the driver has found free |
| VirtioTransmit.DriverTurns | kernel/virtio_net.cc:416-447 | the driver's loop goes on exactly when a completion is there, and it finds a slot exactly when fewer than 8 are pending |
| VirtioTransmit.StepKeeps | kernel/virtio_net.cc:416-483 | every turn of driver and device keeps the queue invariant |
| VirtioTransmit.TransmitQueue.DeviceTake | kernel/virtio_net.cc:449-483 | the k-th entry the device takes is the k-th frame sent, behind a zero header |
| VirtioTransmit.TransmitQueue.DeviceComplete | kernel/virtio_net.cc:416-433 | the device's completion turn |
| VirtioReceive.RepostKeeps | kernel/virtio_net.cc:485-523 | consuming a completion and reposting its buffer keeps all 8 buffers |
| VirtioReceive.EightBuffers | kernel/virtio_net.cc:372-394 | in every state the buffers published, held and completed are 8 less one for each completion shorter than 12 bytes consumed: all 8 exactly when none was |
| VirtioReceive.DropKeeps | kernel/virtio_net.cc:494-497 | consuming a completion shorter than the 12-byte header loses its buffer and keeps the invariant, which counts the lost buffers by such completions |
| VirtioReceive.ShortCompletion | kernel/virtio_net.cc:485-523 | after one empty completion 7 buffers are left |
| VirtioReceive.RunFromStart | kernel/virtio_net.cc:485-523 | in every run from the start: each frame that arrived behind a header is handed up once, in order of arrival, and all 8 buffers are there exactly as long as no completion consumed was shorter than 12 bytes |
| VirtioReceive.EndToEnd | kernel/virtio_net.cc:449-523 | a transmit queue and a receive queue joined by a wire that loses nothing: in every run of both the receiver hands up exactly the frames sent, once each and in order, as far as it has got, and keeps its 8 buffers |
| VirtioReceive.StepKeeps | kernel/virtio_net.cc:485-523 | every turn of driver and device keeps the invariant |
| VirtioReceive.ReceiveQueue.constructor | kernel/virtio_net.cc:372-394 | the initial state of every run: all 8 buffers published, on arrays of its own |
| VirtioReceive.ReceiveQueue.Receive | kernel/virtio_net.cc:485-523 | frames are handed up once each in completion order without the header; 0 when none, -1 without consuming when too big; only a completion under 12 bytes loses a buffer |
| VirtioReceive.ReceiveQueue.DeviceComplete | kernel/virtio_net.cc:485-523 | the device fills a buffer it holds |
| FakeReceive.FakeRing.Inject | kernel/virtio_net.cc:899-935 | accepted exactly for 1 to 2048 bytes with fewer than 8 queued; appended to the queue |
| FakeReceive.FakeRing.FindFree | kernel/virtio_net.cc:586-601 | -1 exactly when 8 are queued; otherwise a free slot, from the probe point on |
| FakeReceive.FakeRing.Receive | kernel/virtio_net.cc:837-896 | the oldest frame, or -1 and nothing consumed when it is too big |
| FakeReceive.InjectKeeps | kernel/virtio_net.cc:899-935 | injecting refines appending to a queue of at most 8 |
| FakeReceive.ReceiveKeeps | kernel/virtio_net.cc:857-896 | receiving refines removing its head |
| LoggedDevice.Device.FlushCache | limine/limine.c:256-275 | afterwards the device holds what the cache showed |
| LoggedDevice.Device.CacheBlock | limine/limine.c:277-302 | succeeds exactly for whole blocks of the device, and then what the program sees is unchanged; otherwise the old view is stored, and the cached block is what the failed read made of it |
| LoggedDevice.Device.Read | limine/limine.c:431-451 | true exactly when the range lies in whole blocks, and then it delivers that slice of the flat device; otherwise the view changes exactly by what the failed read put into the cached block, and the undo stays possible |
| LoggedDevice.Device.Write | limine/limine.c:453-508 | true exactly when the log has room and the range lies in whole blocks, and then it is a patch of the flat device, and the old bytes are logged; otherwise nothing is logged and the device holds the old view or is unchanged; after either the undo is possible |
| LoggedDevice.Device.Store | limine/limine.c:481-502 | the write loop equals one patch of the flat device |
| LoggedDevice.Device.ReverseLog | limine/limine.c:318-324 | the log is reversed, also after a failed write |
| LoggedDevice.Device.Uninstall | limine/limine.c:510-560 | with the cached block dropped, replaying the reversed log gives the device restored entry by entry |
| LoggedDevice.Device.UndoAll | limine/limine.c:1156-1161 | from every state that reads and writes leave, failed ones included, every byte of the device is again as it was at the start |
| LoggedDevice.Device.Install | limine/limine.c:1122-1161 | for every sequence of reads and writes: all of them succeed exactly when they lie in whole blocks and are at most 256 writes, and then the device holds the patched bytes; after the first failure, or giving up, it holds the bytes of the start |
| LoggedDevice.LastWritten | limine/limine.c:562-572 | each byte of the device after the operations is the one written last to its place |
| LoggedDevice.NeverWritten | limine/limine.c:562-572 | or as it was when none was |
| LoggedDevice.Device.Do | limine/limine.c:562-572 | one of them; whether it succeeds or not, the undo is possible |
| UndoEntries.WriteKeepsUndoable | limine/limine.c:453-508 | a logged write keeps both the stored bytes and the cached view restorable |
| UndoEntries.RestoreAll | limine/limine.c:510-560 | replaying entries from last to first restores every byte of any restorable device |
| LoggedDevice.FailedReadHarmless | limine/limine.c:277-302 | a failing read leaves what the program sees unchanged, whatever is on the device, exactly when it does not meet a block cut off by the end of the device |
| LoggedDevice.TailPos | limine/limine.c:277-302 | that is exactly when the device size is no multiple of the block size and the read does not start behind the cut-off block |
| LoggedDevice.SpoiltCache | limine/limine.c:277-302 | on a device of 513 bytes, with block size 512, the program sees what is stored; then a read of the last byte fails and changes the first byte it sees, from 0 to 1 |
| InternetChecksum.Checksum16 | kernel/net_proto.cc:74-95 | the fold loop ends, and for up to 131,074 bytes the result is the RFC 1071 checksum; for longer ones it is the fold of the sum wrapped at 32 bits |
| InternetChecksum.CorrectLengths | kernel/net_proto.cc:74-95 | the code is right for every buffer of a length exactly when that is at most 131,074 bytes |
| InternetChecksum.SumWords | kernel/net_proto.cc:78-86 | the two summing loops: the sum of the big-endian words modulo 2^32 |
| InternetChecksum.FoldKeeps | kernel/net_proto.cc:88-91 | folding preserves the value modulo 65535 and only zero folds to zero |
| InternetChecksum.StoredChecksumVerifies | kernel/net_proto.cc:455-462 | storing the big-endian checksum of the zeroed-field message at any even offset makes the checksum of the message 0 |
| InternetChecksum.OneWordWrong | kernel/net_proto.cc:74-95 | a message that verifies does not verify with one word changed, other than from all zeros to all ones or back |
| InternetChecksum.VerifiesMeans | kernel/net_proto.cc:358-362 | a message verifies exactly when its words sum to a positive multiple of 65535 |
| RecencyList.HoldsMostRecent | kernel/arp_cache.cc:78-133 | over every run the cache holds exactly the 8 most recently used IPs in that order |
| RecencyList.HoldsLastMac | kernel/arp_cache.cc:78-133 | each with the MAC inserted last for it |
| ArpCaching.PutInFront | kernel/arp_cache.cc:95-99 | a freshly stamped pair in a slot off the list comes first; keys and stamps stay distinct |
| ArpCaching.ArpCache.FindEntry | kernel/arp_cache.cc:33-41 | finds the slot of an IP, -1 exactly when it is not cached |
| ArpCaching.ArpCache.ChooseSlot | kernel/arp_cache.cc:43-58 | a free slot, or the slot of the least recently used pair |
| ArpCaching.ArpCache.Insert | kernel/arp_cache.cc:78-110 | the array and clock refine inserting in front of the recency list, the ninth pair dropping out |
| ArpCaching.ArpCache.Lookup | kernel/arp_cache.cc:112-133 | agrees with the list and moves a hit to the front |
| FrameFormat.HeadVerifies | kernel/net_proto.cc:509-524 | the IPv4 header built with its checksum verifies |
| FrameHandling.Ipv4FrameAccepted | kernel/net_proto.cc:334-398 | the addressed host accepts every frame net_send_ipv4 builds, padded or not |
| FrameHandling.UdpRoundTrip | kernel/net_proto.cc:334-398 | for every payload up to 1472 bytes, nonzero ports and any trailing padding, the frame calls the handler of the port on the addressed host with exactly the sender's IP, port and payload |
| FrameHandling.DamageFound | kernel/net_proto.cc:358-362 | a frame the host accepts is ignored once any one word of its IPv4 header but the first is changed like that |
| FrameHandling.OthersIgnore | kernel/net_proto.cc:549-555 | a frame for another MAC does nothing |
| FrameHandling.EchoReplyValid | kernel/net_proto.cc:436-462 | an echo reply goes back to the sender with both checksums valid and identifier, sequence and payload unchanged |
| FrameHandling.PingAnswered | kernel/net_proto.cc:334-472 | a valid echo request for the host's own IP is answered, padded or not: to its sender, which accepts the reply, with identifier, sequence and data unchanged |
| FrameHandling.Ipv4Wire | kernel/net_proto.cc:505-526 | the bytes of the frame built: addresses, type, version 4 and five header words, big-endian length, identification 0x2222, no fragment, 64 hops to live, protocol and IPs |
| FrameHandling.EchoReplyEndsThere | kernel/net_proto.cc:334-472 | the sender accepts the reply and answers nothing |
| NetStack.BuildArp | kernel/net_proto.cc:259-282 | the byte-filled ARP frame is the one specified |
| NetStack.BuildIpv4 | kernel/net_proto.cc:500-524 | the byte-filled frame is the one specified, checksum included |
| NetStack.BuildEchoReply | kernel/net_proto.cc:438-462 | the byte-filled echo reply is the one specified |
| NetStack.PutSum | kernel/net_proto.cc:455-462 | stores the checksum of the zeroed-field bytes |
| NetStack.NetHost.SendArpRequest | kernel/net_proto.cc:293-330 | broadcasts the request |
| NetStack.NetHost.SendIpv4 | kernel/net_proto.cc:474-537 | a cached destination gets the frame and becomes most recent; an uncached one gets an ARP request and false; too long sends nothing |
| NetStack.NetHost.Handle | kernel/net_proto.cc:540-573 | what a frame does to cache, sent frames and deliveries is what the frame functions say |
| NetStack.NetHost.HandleArpFrame | kernel/net_proto.cc:212-291 | learns before it looks at the operation; answers only requests for its own IP |
| NetStack.NetHost.HandleIpv4Frame | kernel/net_proto.cc:334-472 | the checks in the order of the code |
| NetStack.NetHost.SendUdp | kernel/udp.cc:123-157 | true exactly for nonzero ports, at most 1472 bytes, a cached destination and a card that accepts the frame, and then exactly that frame is sent |
| NetStack.NetHost.HandlePacket | kernel/udp.cc:76-121 | delivers exactly the datagrams with a valid length and a registered port |
| NetStack.NetHost.RegisterHandler | kernel/udp.cc:42-67 | registers or replaces the handler of the port and of no other; fails exactly for port 0 or a full table without the port |
| NetStack.BuildUdp | kernel/udp.cc:133-146 | the byte-filled datagram is the one specified |
| FrameHandling.UdpWire | kernel/udp.cc:133-146 | the eight bytes in front of the payload: ports and length, big-endian, and no checksum |
| FrameHandling.UdpParts | kernel/udp.cc:76-121 | ports, length and payload read back from the datagram |
| ArpNetwork.StepKeeps | kernel/net_proto.cc:212-330 | every step of every host keeps: cache entries and ARP frames name true pairs, IPv4 frames go between the owners of their IPs |
| ArpNetwork.ReactionGenuine | kernel/net_proto.cc:212-472 | whatever a host learns from or answers to such a frame is true again |
| ArpNetwork.CachesAndFramesTrue | kernel/net_proto.cc:474-573 | in every run under loss, duplication, reordering and padding, every cache entry is some host's true (IP, MAC) pair, and an IPv4 frame on the wire is for the MAC of exactly the host that has its destination IP |
| ArpNetwork.Resolved | kernel/net_proto.cc:209-284 | in any state of the network, with any padding: after host i's request and host j's answer have arrived, each has the other's MAC in its cache, and what i sends to j next is an IPv4 frame that j accepts |
| ArpNetwork.RequestAnswered | kernel/net_proto.cc:209-284 | the host asked for learns the asker's pair and answers with its own, to the asker |
| ArpNetwork.ReplyLearned | kernel/net_proto.cc:224-239 | the asker learns the pair of the answer, and answers nothing |
| ArpNetwork.ArpWire | kernel/net_proto.cc:258-276 | the bytes in front of the addresses: Ethernet and IPv4, of 6 and 4 bytes, and the operation |
| ArpNetwork.ArpReplySilent | kernel/net_proto.cc:228-239 | a frame built as an ARP reply triggers no reply |
| LayeredRead.Read | kernel/block_io.cc:7-37 | -1 exactly past the end, 0 at the end, otherwise the bytes of the content up to the end of the block, and nothing else of the buffer changes |
| LayeredRead.ReadPart | kernel/block_io.cc:26-35 | the path through a temporary block |
| LayeredRead.ReadAll | kernel/block_io.cc:39-53 | terminates and fills the buffer with exactly the slice [offset, min(offset+n, size)) of the content |
| LayeredRead.ReadBlock | kernel/ext2.cc:128-148 | one block, through the device named by the node's block pointer |
| LayeredRead.ReadPointer | kernel/ext2.cc:133-144 | direct pointers, and little-endian pointers of the single indirect block |
| LayeredRead.ReadsBack | kernel/ext2.cc:128-148 | for every file and every choice of blocks: when the RAM disk holds the file's k-th block in block d[k], the i-node the first 12 of these numbers, and its indirect block the others as little-endian words in order, then what read_all delivers is the slice of the file |
| LayeredRead.StoredContent | kernel/ext2.cc:128-148 | such an i-node can be read over any device, and its content is the file |
| LayeredRead.PointerStored | kernel/ext2.cc:133-144 | the number found for block k is d[k] |
| LayeredRead.SliceOfBlocks | kernel/ext2.cc:128-148 | each byte delivered is the byte at that offset of the device block the i-node names for it |

## Left out

- Page-table flag bits other than P, W, U and PS, TLB flushes, memory fences and interrupt flags.
- Shared mappings beyond their list (faults in shared regions and their cross-core race, `free_shared_vmes_only`), `map_mmio`, and `ensure_shared_roots`.
- AddressSpaceFork.ForkFrom: a huge user page stops the copy with its own outcome, where the kernel asserts.
- AddressSpaceLifetime.Lifetime: a thread started by fork, whose pages are there from the start, is not covered, and a run is followed only until a private mapping ends above 2^47.
- AddressSpaceLifetime.LoadPage: which bytes of the file the page gets is not modelled, only that it gets the data it is given.
- SemaphoreOnScheduler.NoLostWakeup: one semaphore at a time, alone on its condition.
- BlockingLockOnScheduler.MutualExclusion: one lock at a time, alone on its condition, and given back only by its owner; the code checks only that it is locked.
- Liveness and fairness: that a woken thread is eventually scheduled, that a lost frame is resent.
- Scheduler.StepKeeps: condition epochs are unbounded numbers; runs with 2^64 notifications on one condition are not covered.
- SemaphoreModel.NoLostWakeup: the same for its epoch.
- Boot, bootstrap of each core, `Thread::sleep`, timers, TCB contents other than action and epoch, thread-local storage.
- Heap statistics and `check_leaks`; the heap's own lock (its calls are one step each here).
- BoundaryTagHeap.Heap.Free: a pointer that is not live is not modelled; the code only logs it.
- PCI discovery, feature negotiation, doorbells, and the fake transmit path, which completes every frame at once.
- VirtioTransmit.TransmitQueue.Send: only the first bytes of a buffer, header and frame, are modelled, not what an older longer frame left behind them.
- Frame logging, statistics counters, the chat application and the debug dumps.
- NetStack.NetHost.Handle: a null handler or data pointer is not modelled.
- IPv4 fragments and options are accepted as the code accepts them: fragments are not reassembled and options are ignored.
- `arp_cache_reset` after use, `arp_cache_snapshot` and `arp_cache_print`; `udp_clear_handlers`.
- The installer's partition-table logic, its option parsing and the file the undo data is stored in; device I/O errors other than reading past the end; a write interrupted in the middle.
- Superblock and group-descriptor parsing, directories, symbolic links, double and triple indirect blocks.
- LayeredRead.Read: `ASSERT`s on the block pointer and on the sector count are preconditions, not outcomes.
- System calls, ELF loading, the keyboard, and user-mode entry.
