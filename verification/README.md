# Verified models of the mario kernel

mario is an i386 kernel with a memory manager, caches, a scheduler and byte-level encoders written in plain C.
This project models the parts of it where a short promise stands against branch-heavy, mutable code, and proves
the promise for every input, every reachable state or every run.

Each part takes the form of its source. Objects that are updated in place are classes, whose methods follow the
branches and loops of the C functions and are proved against functions of their old state. Code that several
threads run under a lock is also modelled as a state machine whose steps are the locked sections, and what every
step keeps is proved over all interleavings.

| file | models |
|---|---|
| `Words.dfy`, `WideDivision.dfy`, `Division64.dfy` | 128-bit and 64-bit division on words (`compiler-rt/udivmodti4.c`, `udivmoddi4.c`, `divmoddi4.c`) |
| `BuddyAllocator.dfy` | the buddy page allocator (`src/mm/page_alloc.c`) |
| `VmaLists.dfy`, `AddressSpace.dfy` | VMA lists and the address map they stand for (`src/mm/mm.c`, `src/mm/uaccess.c`, `src/mm/fault.c`) |
| `CopyOnWrite.dfy` | demand paging and copy-on-write fork, refining a machine that copies eagerly (`src/mm/fault.c`, `src/mm/paging.c`) |
| `BufferCache.dfy` | the sector buffer cache under interleaving (`src/fs/block/buffer.c`) |
| `FilePages.dfy` | the file page cache, one call at a time (`src/mm/filemap.c`) |
| `Scheduler.dfy`, `Semaphore.dfy` | SMP runqueues, semaphores and wait queues (`src/kernel/sched.c`, `semaphore.c`, `wait.c`) |
| `RingBuffer.dfy`, `Pipe.dfy`, `SocketRights.dfy` | the byte ring, pipes over it, and descriptors that travel with a byte stream (`src/lib/ring_buffer.c`, `src/fs/pipe.c`, `src/fs/socket.c`) |
| `LogRing.dfy` | the kernel log in a wrapping byte array (`src/kernel/logbuf.c`) |
| `SignalFrames.dfy` | nested signal frames and their unwinding, with the return code executed instruction by instruction (`src/kernel/signal.c`) |
| `MarioImage.dfy` | the MarioFS image writer and reader (`rd/tools/rd-make.c`, `rd/tools/rd-explorer.c`) |
| `Lists.dfy` | lists without repetition and other shared vocabulary |

What the code does that its comments do not say, and that a reader should know:

- `rd-make` without a device list writes the free chain where the file position happens to be. After scanning a
  directory of nine or more entries that position can lie inside the image, and the free chain then overwrites
  files or directories. `MarioImages.EndsAtEnd` says of which trees this is true, `MarioImages.Writer.MakeImage`
  that the image comes out right exactly for the others (or without free blocks), and `MarioImages.TreeOverwritten`
  which blocks are lost. The size check at the end notices this unless whole pages are missing
  (`MarioImages.DamageUnnoticedIff`): with a root of nine entries and a file of eight blocks the exit status is good and
  the image is not (`MarioImages.NineEntriesAccepted`).
- That size check calls `stat` from inside the archived directory, which the tool has entered and not left. A relative
  image path, as `rd/Makefile` gives it, leads nowhere there or to another file, and the check then judges a size that
  is not the image's; `found` and `stray` in `MarioImages.Writer.MakeImage` stand for that.
- A semaphore that is upped while the first waiter is woken, but has not left the queue, loses a wakeup, because the
  waiter leaves the queue itself. In every run from `sema_init` exactly as many sleepers are left behind as there were
  such ups (`Semaphores.LostWakeups`, `Semaphores.NoneLostIff`); `Semaphores.CountingLosesWakeup` is a run with one.
  Used as a mutex it cannot happen.
- Not every `max_pfn` satisfies the allocator's assertion on pair numbers (`PageAlloc.AllPagesCovered`,
  `PageAlloc.SixtyFivePages`).
- `pipe_read` of zero bytes from a non-empty pipe returns 0 although it is not at the end of the stream
  (`Pipes.ReadReturnsZero`).
- In `do_signal` the line that takes the handler's mask out of `m` has no effect, since `m` is computed afresh for
  every signal; all signals that were unblocked on entry are delivered together.
- `do_page_fault` grows a stack area before it looks at permissions, so the area stays grown even when the access is
  then refused (`AddressSpaces.AddressSpace.PageFaultArea`).

## Model

| member | source | states |
|---|---|---|
| WideDivision.QuotientDigit | compiler-rt/udivmodti4.c:54-64 | an estimated digit becomes the true quotient digit after at most two corrections |
| WideDivision.CorrectDigit | compiler-rt/udivmodti4.c:59-64 | the correction loop ends on the true digit, however the overflow tests fall out, and never needs a product of more than 64 bits |
| WideDivision.DivideNormalised | compiler-rt/udivmodti4.c:50-81 | two digits with wrapping subtractions give the quotient and remainder of a normalised division |
| WideDivision.Udiv128By64To64Default | compiler-rt/udivmodti4.c:23-82 | for all u1 < v and all u0 the result is the quotient and remainder of u1*2^64+u0 by v, and fits 64 bits |
| WideDivision.SignTest | compiler-rt/udivmodti4.c:147-148 | the sign bit of divisor - dividend - 1 says whether to subtract |
| WideDivision.ConditionalSubtract | compiler-rt/udivmodti4.c:142-150 | the branch-free form subtracts exactly when it can and gives the carry |
| WideDivision.AlignDivisor | compiler-rt/udivmodti4.c:133-136 | the shift lines the divisor up without losing bits, and no multiple of two more fits the dividend |
| WideDivision.ShiftSubtract128 | compiler-rt/udivmodti4.c:133-155 | the shift loop divides when the divisor has more than 64 bits |
| WideDivision.Udivmodti4 | compiler-rt/udivmodti4.c:100-156 | q*b + r = a and r < b for every 128-bit a and b > 0 |
| Division64.InitialDigits | compiler-rt/udivmoddi4.c:123-167 | the case split on the shift count puts the high bits of a into r and the rest, aligned, into q |
| Division64.ShiftLoop | compiler-rt/udivmoddi4.c:175-196 | the loop over q, r and the carry ends in the quotient and the remainder |
| Division64.ShiftDivide | compiler-rt/udivmoddi4.c:110-119 | dividing by a power of two with shifts is division |
| Division64.LeadingZeroGap | compiler-rt/udivmoddi4.c:148-155 | a wrapped, large difference of leading zeroes means a < b, and any other is a shift after which the partial remainder is below b |
| Division64.ShiftAndSubtract | compiler-rt/udivmoddi4.c:155-196 | start and loop together divide, also when d >= 2^63 and d - r - 1 wraps |
| Division64.DivideByHigh | compiler-rt/udivmoddi4.c:55-104 | the cases of a divisor whose low word is zero divide |
| Division64.DivideWords | compiler-rt/udivmoddi4.c:38-196 | the case split on zero high and low words divides in every case |
| Division64.Udivmoddi4 | compiler-rt/udivmoddi4.c:27-196 | q*b + r = a and r < b for every 64-bit a and b > 0 |
| Division64.Divmoddi4 | compiler-rt/divmoddi4.c:17-28 | signed division truncates toward zero and the remainder has the sign of a; the one overflowing case is given |
| BuddySpec.RemoveListed | src/mm/page_alloc.c:149-189 | taking a listed block out of the free pages takes exactly that block out of the lists of maximal free blocks |
| BuddySpec.BuddiesNotBothListed | src/mm/page_alloc.c:267-280 | below the top order no two buddies are both listed |
| BuddySpec.ListedDisjoint | src/mm/page_alloc.c:149-284 | listed blocks share no page |
| BuddySpec.CoveringBlock | src/mm/page_alloc.c:159-165 | a free aligned run lies in some listed block of its order or above, which the search will find |
| BuddySpec.RunIsFree | src/mm/page_alloc.c:149-165 | a block is free when every page of an aligned run of 2^k pages is |
| BuddySpec.AlignedRun | src/mm/page_alloc.c:254 | a page is aligned when it starts such a run |
| PageAlloc.PageAllocator.AllocPages | src/mm/page_alloc.c:149-192 | fails exactly when no aligned run of 2^order free pages exists; else takes one such run, and free and used pages still partition the managed ones |
| PageAlloc.PageAllocator.SplitTo | src/mm/page_alloc.c:168-189 | splitting restores lists and pair bits for everything but the run that is given out |
| PageAlloc.PageAllocator.FreePages | src/mm/page_alloc.c:247-284 | coalescing upwards makes exactly the run free again and keeps lists and pair bits |
| PageAlloc.PageAllocator.GetPage | src/mm/page_alloc.c:302-309 | a page with count 1, or none exactly when no page is free |
| PageAlloc.PageAllocator.PutPage | src/mm/page_alloc.c:311-315 | the last reference frees the page, an earlier one only counts down |
| PageAlloc.CanonicalState | src/mm/page_alloc.c:149-284 | lists and bitmaps are determined by the set of free pages alone |
| PageAlloc.AllocThenFree | src/mm/page_alloc.c:149-284 | allocating and freeing restores every list and bitmap |
| PageAlloc.FreesCommute | src/mm/page_alloc.c:247-284 | the order of two frees does not matter |
| PageAlloc.BitTellsBuddy | src/mm/page_alloc.c:267-275 | when a block becomes free, the pair bit tells whether its buddy is |
| PageAlloc.AllPagesCovered | src/mm/page_alloc.c:181 | every page's pair number lies inside the rounded bitmap at every order if and only if max_pfn satisfies a condition per order |
| PageAlloc.SixtyFivePages | src/mm/page_alloc.c:181 | with 65 pages the last one fails the assertion |
| VmaLists.CellInside | src/mm/mm.c:64-75 | in a sorted list the VMA that contains an address decides what it means |
| VmaLists.FreeRangeApart | src/mm/mm.c:483-516 | a range is unmapped exactly when every VMA ends before it or starts behind it |
| AddressSpaces.AddressSpace.InsertVmStruct | src/mm/mm.c:118-136 | inserting a VMA that overlaps no other keeps the order the asserts demand and overrides the address map |
| AddressSpaces.AddressSpace.UnmapFixup | src/mm/mm.c:221-297 | what is left of a VMA on either side goes back with the right file offsets and one reference each |
| AddressSpaces.AddressSpace.UnlinkOverlapping | src/mm/mm.c:347-366 | the first loop takes out exactly the overlapping VMAs, last one first |
| AddressSpaces.UnlinkedParts | src/mm/mm.c:347-366 | kept and unlinked VMAs are those that do not and do overlap, and no file reference is lost between them |
| AddressSpaces.RestrictedView | src/mm/mm.c:337-392 | replacing every VMA by its parts outside a range restricts the address map to the outside |
| AddressSpaces.AddressSpace.DoMunmap | src/mm/mm.c:337-392 | every address outside the page-aligned range keeps its meaning and every one inside loses it; the errors; references beyond one per VMA unchanged |
| AddressSpaces.AddressSpace.MergeMmap | src/mm/mm.c:33-51 | merging changes no address and leaves no neighbours that meet, have the same flags, and are both anonymous or parts of one file that follow each other |
| AddressSpaces.AddressSpace.FindVma | src/mm/mm.c:78-89 | the first VMA that ends behind the address |
| AddressSpaces.AddressSpace.GetUnmappedAreaLocked | src/mm/mm.c:483-516 | the lowest free range from the hint on, or 0 exactly when there is none |
| AddressSpaces.HintIs | src/mm/mm.c:483-490 | the search starts at the first page from the hint on, or in the middle of user space |
| AddressSpaces.LowestFreeIs | src/mm/mm.c:483-516 | the range that is found is page-aligned, lies in user space and has no mapped byte |
| AddressSpaces.NoneLower | src/mm/mm.c:483-516 | every range that starts between the hint and it has one |
| AddressSpaces.NoneFree | src/mm/mm.c:483-516 | a free range has no mapped byte |
| AddressSpaces.AddressSpace.GenericFileMmap | src/mm/filemap.c:602-626 | which files may be mapped how, and the reference a mapping takes |
| AddressSpaces.AddressSpace.CheckMmap | src/mm/mm.c:568-608 | the argument checks accept exactly the acceptable arguments, with the errors of the source |
| AddressSpaces.AddressSpace.DoMmap | src/mm/mm.c:560-666 | succeeds exactly under the stated conditions; then every address of the mapping has the rights asked for, is shared if and only if MAP_SHARED was asked for, grows down if asked to, and stands for the byte of the file at the offset asked for or for anonymous memory, and all others keep their meaning; a fixed mapping that its driver refuses leaves the range unmapped |
| AddressSpaces.NewCells | src/mm/mm.c:540-547 | what the addresses of a new mapping mean, from the arguments of the call |
| AddressSpaces.AcceptedFile | src/mm/filemap.c:602-626 | a mapped file is regular and readable, and writable too for a shared writable mapping |
| AddressSpaces.AnonymousAccepted | src/mm/mm.c:568-608 | a well-formed anonymous mapping in user space is never refused |
| AddressSpaces.AddressSpace.VerifyArea | src/mm/uaccess.c:7-49 | succeeds exactly for kernel callers and for ranges that start in, or may grow, an area and may be accessed throughout |
| AddressSpaces.AccessibleBytes | src/mm/uaccess.c:7-49 | a range that starts in an area and is accessible has the right to be read or written at each of its bytes |
| AddressSpaces.BytesAccessible | src/mm/uaccess.c:7-49 | a non-empty range all of whose bytes have it is accessible |
| AddressSpaces.AccessibleBelow | src/mm/uaccess.c:16-46 | a range that starts in a hole is accessible only when a stack within its limit may grow down to it and every byte from there on has the right |
| AddressSpaces.BelowAccessible | src/mm/uaccess.c:16-46 | and whenever one may |
| AddressSpaces.AddressSpace.PageFaultArea | src/mm/fault.c:191-216 | a fault below a growable area within the limit extends it by whole pages, and no other fault changes the map; the access is good exactly when its address is then mapped with the right for it |
| AddressSpaces.GrownKeepsCells | src/mm/fault.c:200-201 | growing moves start and offset together, so mapped addresses keep their meaning |
| AddressSpaces.GrownCells | src/mm/fault.c:196-201 | exactly the addresses from the faulting page up to the old start are new, and they continue the area downwards |
| AddressSpaces.AddressSpace.ExitMmap | src/mm/mm.c:159-180 | every VMA gives its file reference back |
| AddressSpaces.AddressSpace.DupMmap | src/mm/mm.c:182-219 | the child has the same list with one reference per VMA, or nothing when memory runs out |
| EagerMemory.OwnPagesUndisturbed | src/mm/paging.c:59-118 | over every run of the eager machine, other processes do not change a page of one's own |
| EagerMemory.ForkCopies | src/mm/paging.c:94-118 | a fork shows the child the parent's pages, and neither sees the other's later writes to private memory |
| EagerMemory.ReadsBack | src/mm/fault.c:184-220 | whatever others do meanwhile, a process reads the byte it wrote into private memory where it wrote it, and at every other offset what was there before |
| EagerMemory.NewMemoryIsZero | src/mm/fault.c:124-176 | new anonymous memory reads as zeroes until its process writes it |
| EagerMemory.MappedFileShows | src/mm/fault.c:124-176 | a mapped file page, private or shared, shows the byte that the file has at that place until the process writes there |
| EagerMemory.FilesChange | src/mm/filemap.c:454-481 | a file changes exactly at the byte that is written to it, by a write call or through a shared mapping |
| EagerMemory.RunsSound | src/mm/paging.c:59-166 | over every run a mapped page belongs to a live process, and only private memory has bytes of its own |
| EagerMemory.ChildReads | src/mm/paging.c:94-118 | after a fork the child reads every byte of private memory as the parent did, whatever others do |
| EagerMemory.ParentReads | src/mm/paging.c:94-118 | the parent keeps reading what it did, whatever the child does |
| EagerMemory.ChildReadsWritten | src/mm/paging.c:94-118 | the child reads the byte that the parent wrote last before the fork, also after the parent has written another |
| EagerMemory.FaultsExactly | src/mm/fault.c:184-220 | over every run of the others an access faults exactly when the mapping does not allow it or is gone |
| EagerMemory.DoneExactly | src/mm/paging.c:94-166 | which forks and mappings succeed, and which processes are alive afterwards |
| PageFrames.SoleReference | src/mm/fault.c:54-58 | a count of one means one entry and no cache reference |
| PageFrames.ShareEntryKeeps | src/mm/paging.c:59-70 | sharing a frame between two write-protected entries keeps counts and permissions right and shows the child what the parent sees |
| PageFrames.AllowWriteKeeps | src/mm/fault.c:47-58 | granting write access to a shared page or a sole owner changes nothing visible |
| PageFrames.CopyKeeps | src/mm/fault.c:69-86 | copying a shared frame keeps counts right and shows the copy in place of the original |
| PageFrames.DropEntryKeeps | src/mm/paging.c:120-129 | dropping an entry drops one reference and nothing anyone else sees |
| PageFrames.EvictPageKeeps | src/mm/filemap.c:99-117 | a cached page only the cache refers to is clean, so evicting it loses nothing |
| PageFrames.SyncEntryKeeps | src/mm/filemap.c:521-559 | writing a dirty shared page back changes neither memory nor the bytes of the file |
| PageFrames.Memory.CopyOnePte | src/mm/paging.c:59-70 | one entry of the page tables is shared, and memory stays valid |
| PageFrames.Memory.CopyPageTables | src/mm/paging.c:94-118 | the loop over all entries copies every page of the parent, as seen |
| PageFrames.Memory.DoFork | src/mm/paging.c:94-118 | afterwards every process sees what it would had the pages been copied |
| PageFrames.Memory.DoNoPage | src/mm/fault.c:124-176 | a missing page faults in, and no process sees a difference |
| PageFrames.Memory.DoWpPage | src/mm/fault.c:34-88 | write access is granted or the page copied, the bytes stay, and others see no difference |
| PageFrames.Memory.FreeOnePte | src/mm/paging.c:120-129 | one entry and its reference go |
| PageFrames.Memory.FilemapSyncPte | src/mm/filemap.c:521-559 | afterwards the entry is clean |
| PageFrames.Memory.ExitProcess | src/mm/paging.c:131-166 | exactly the pages of the process are gone, dirty shared ones having reached their files |
| PageFrames.Memory.WriteByte | src/mm/fault.c:184-220 | a user write, with the faults it takes, does what the eager machine does |
| PageFrames.Memory.Perform | src/mm/fault.c:34-220 | every operation refines the eager machine's step and returns the same |
| PageFrames.Memory.RunAll | src/mm/paging.c:59-166 | over every run, what is read is what eager copying would have given; the rows of `EagerMemory` say what that is |
| BufferCache.LookupKeeps | src/fs/block/buffer.c:90-118 | finding, recycling or going to sleep keeps the invariant |
| BufferCache.LoadKeeps | src/fs/block/buffer.c:122-140 | a read from the device under b_sem keeps it |
| BufferCache.StoreKeeps | src/fs/block/buffer.c:122-140 | storing into a held buffer keeps it |
| BufferCache.ReleaseKeeps | src/fs/block/buffer.c:172-188 | the first half of brelse keeps it |
| BufferCache.SyncWriteKeeps | src/fs/block/buffer.c:142-148 | the write of a flushed buffer keeps it |
| BufferCache.LeaveKeeps | src/fs/block/buffer.c:190-203 | the second half of brelse, with its wakeup, keeps it |
| BufferCache.RunKeeps | src/fs/block/buffer.c:62-207 | over every interleaving: one slot per sector, counts equal users, one holder per slot, free slots first and clean, valid data current, the disk behind only where a slot is dirty or being written |
| BufferCache.HoldersSeeLatest | src/fs/block/buffer.c:122-140 | a holder sees the sector it asked for as last stored, and no one else holds that sector |
| BufferCache.ReadsLatest | src/fs/block/buffer.c:122-140 | in every run from the initial state bread returns the last stored value or the disk's |
| BufferCache.StoredIsRead | src/fs/block/buffer.c:122-140 | what a thread stored is what every later bread of the sector finds, in every interleaving, until a thread stores there again |
| BufferCache.UntouchedIsRead | src/fs/block/buffer.c:122-140 | in a run from the initial state that never stores into a sector, every bread of it finds what the disk had at the start |
| BufferCache.StoredIsSaved | src/fs/block/buffer.c:142-207 | once every thread is outside again, the disk has what was stored last |
| BufferCache.QuietDiskIsCurrent | src/fs/block/buffer.c:142-207 | when no thread is inside, every stored sector is on disk |
| BufferCache.RecycledIsSaved | src/fs/block/buffer.c:94-111 | a slot that may be recycled has been saved |
| BufferCache.SleepsOnlyWhenFull | src/fs/block/buffer.c:91-98 | get_buffer sleeps exactly when its sector has no slot and every slot is in use |
| BufferCache.RecyclesOldest | src/fs/block/buffer.c:94-111 | a sector without a slot gets the one at the head of the list, exactly when any slot is free |
| BufferCache.MovedToTail | src/fs/block/buffer.c:114-115 | the slot that is used moves behind all others, which keep their order |
| BufferCache.FreedGoesBehindFree | src/fs/block/buffer.c:154-166 | a freed slot goes behind the free ones and in front of those in use, which keep their order |
| BufferCache.InsertBeforeBusy | src/fs/block/buffer.c:154-166 | inserting in front of the first busy slot is inserting behind the free ones |
| BufferCache.Buffers.FindBuffer | src/fs/block/buffer.c:62-79 | the slot of the sector, counted, if there is one |
| BufferCache.Buffers.GetBuffer | src/fs/block/buffer.c:81-119 | the locked part chooses, recycles and moves the slot as the state machine does |
| BufferCache.Buffers.IntoLruList | src/fs/block/buffer.c:154-166 | the loop over the list finds the place behind the last free slot |
| BufferCache.Buffers.BrelseFirst | src/fs/block/buffer.c:172-188 | the last user keeps a count of one for the flush |
| BufferCache.Buffers.BrelseLast | src/fs/block/buffer.c:189-206 | the slot becomes free exactly when no one else counted in meanwhile |
| FilePages.FileMap.Lookup | src/mm/filemap.c:67-82 | the bucket walk finds exactly the cached pages |
| FilePages.FileMap.RemoveEntry | src/mm/filemap.c:84-91 | hash and LRU list lose the same entry |
| FilePages.FileMap.EvictOne | src/mm/filemap.c:99-117 | evicts a page no one refers to, exactly when there is one |
| FilePages.FileMap.FillPage | src/mm/filemap.c:213-281 | the new entry holds the file's bytes, or the error: -ENOMEM without a page, -EIO for a short read, or the driver's |
| FilePages.FileMap.GetPage | src/mm/filemap.c:283-377 | a page that is handed out holds the file's bytes; which error comes when, -ENOSPC exactly when the cache is full of used pages; which errors stay behind in the cache |
| FilePages.FileMap.InvalidatePages | src/mm/filemap.c:155-187 | pages behind the cut go, the one around it is zeroed from there on, others stay |
| FilePages.FileMap.InvalidateInode | src/mm/filemap.c:189-211 | exactly the pages of the inode go |
| FilePages.FileMap.Truncate | src/mm/filemap.c:155-187 | the file is cut to the new size and keeps its bytes before it, and the cache agrees with it |
| FilePages.FileMap.UpdateCachedRange | src/mm/filemap.c:454-481 | after a write the cache agrees with the written file |
| FilePages.FileMap.WriteFile | src/fs/ext2/file.c:153-160 | the file has the bytes written at their place, keeps all others, grows just enough, and the cache agrees with it |
| FilePages.FileMap.GenericFileRead | src/mm/filemap.c:406-452 | returns bytes of the file, min(count, size - pos) of them unless it ends early in front of a page in trouble; what goes well or wrong may differ from page to page |
| FilePages.FileMap.ReadPages | src/mm/filemap.c:421-451 | the loop over the pages copies the bytes of the file up to the end of the request or of the file, or to a page in trouble |
| FilePages.WriteThenRead | src/mm/filemap.c:406-481 | what is written reads back, everything else reads as before |
| Scheduler.WakeUpKeeps | src/kernel/sched.c:115-164 | a wakeup keeps the invariant and leaves the task runnable and linked |
| Scheduler.BestIsShortest | src/kernel/sched.c:84-113 | among the allowed CPUs with at most NR_CPUS queued tasks the chosen one has the shortest queue |
| Scheduler.OutgoingKeeps | src/kernel/sched.c:277-285 | the outgoing check leaves a queue of runnable tasks only |
| Scheduler.ScanOneKeeps | src/kernel/sched.c:293-321 | waking a signalled sleeper never moves a task another CPU runs |
| Scheduler.RecheckKeeps | src/kernel/sched.c:329-336 | a late signal relinks the outgoing task on its own CPU |
| Scheduler.ScheduleKeeps | src/kernel/sched.c:252-364 | schedule keeps the invariant |
| Scheduler.ScheduleChooses | src/kernel/sched.c:338-349 | the CPU gets a runnable task of its queue with the largest counter, which is positive, or idle exactly when the queue is empty |
| Scheduler.SleeperLeaves | src/kernel/sched.c:277-285 | a task that set a sleep state, and has no signal to wake it, is in that state, on no queue and on no CPU after schedule |
| Scheduler.SignalledStays | src/kernel/sched.c:278-336 | an interruptible one with a signal that is pending or comes late stays runnable and linked |
| Scheduler.StaysAsleep | src/kernel/sched.c:115-364 | over every run a sleeping task stays in its state, on no queue and on no CPU, until it is woken, or a signal comes for an interruptible one |
| Scheduler.ScanChooses | src/kernel/sched.c:293-321 | a signalled sleeper goes to the shortest queue among the CPUs it may use |
| Scheduler.Migrates | src/kernel/sched.c:115-364 | a task changes its CPU only when a signal wakes it in schedule, and then to one that it may use, or to CPU 0 when its mask has none |
| Scheduler.SlicesRenewed | src/kernel/sched.c:338-350 | all time slices are renewed exactly when the CPU has tasks to run and each has used its slice up |
| Scheduler.ForkSplitsSlice | src/kernel/fork.c:117-120 | a fork divides the time slice between parent and child and touches no other task |
| Scheduler.StepKeeps | src/kernel/sched.c:115-364 | every step keeps: each CPU runs its idle task or one of its own queue, each task is on at most one queue, that of its CPU, and every runnable task is linked |
| Scheduler.RunKeeps | src/kernel/sched.c:115-364 | in every run no task is current on two CPUs |
| Scheduler.StaysRunnable | src/kernel/sched.c:115-364 | in every run a runnable task stays runnable and linked until it sleeps by its own decision |
| Scheduler.WakeupNotLost | src/kernel/sched.c:449-468 | a wakeup at any time after the sleep state was set is not lost, whatever the CPUs do in between and afterwards |
| Scheduler.SignalsWake | src/kernel/sched.c:292-336 | after any schedule every interruptible sleeper with a pending signal is runnable |
| Scheduler.Cpus.SelectTaskCpu | src/kernel/sched.c:84-113 | the loop chooses the first shortest allowed queue |
| Scheduler.Cpus.WakeUpProcess | src/kernel/sched.c:115-164 | does what the state machine's wakeup does, and tells which CPU to kick |
| Scheduler.Cpus.ScheduleCpu | src/kernel/sched.c:252-364 | its checks and loops do what the state machine's step does |
| Semaphores.DownSleeps | src/kernel/semaphore.c:4-11 | a down that has to wait keeps the invariant |
| Semaphores.UpKeeps | src/kernel/semaphore.c:13-19 | an up by the holder keeps it |
| Semaphores.RunKeeps | src/kernel/semaphore.c:4-19 | used as a mutex: over every run at most one thread holds it, count = 1 - (holder or granted) - waiters, and threads are woken in the order they went to sleep |
| Semaphores.UpHandsOver | src/kernel/sched.c:492-507 | an up with waiters wakes the longest-waiting one that was not woken |
| Semaphores.DownDecides | src/kernel/semaphore.c:4-11 | a down takes the mutex exactly when no one holds it or was given it, and else its thread goes to sleep behind all others |
| Semaphores.ResumeHolds | src/kernel/semaphore.c:4-11 | a woken thread leaves the head of the queue and holds the mutex when its down returns |
| Semaphores.UpFrees | src/kernel/semaphore.c:13-19 | an up ends its thread's hold, and without waiters the mutex is free |
| Semaphores.NoSleepersWhenFree | src/kernel/semaphore.c:4-19 | no thread sleeps on a free mutex |
| Semaphores.LostWakeups | src/kernel/sched.c:492-507 | counting use, over every run: the sleepers that were not woken are as many as the count says, and one more for each up that hit a waiter that was already woken; they are woken in order |
| Semaphores.NoneLostIff | src/kernel/sched.c:492-507 | over every run from `sema_init`: no sleeper is left behind if and only if no up hit such a waiter, and then every up with sleepers wakes the first, unless it is one itself |
| Semaphores.CountingLosesWakeup | src/kernel/sched.c:492-507 | from a count of 0, two downs and two ups in a row leave the second waiter asleep, and a third up does not wake it |
| Semaphores.WaitQueue.OutWaitQueue | src/kernel/wait.c:20-28 | a node leaves the queue once, and an unlinked one changes nothing |
| RingBuffers.RingBuffer.Write | src/lib/ring_buffer.c:45-72 | appends as much as fits |
| RingBuffers.RingBuffer.Read | src/lib/ring_buffer.c:76-103 | takes the oldest bytes, in order, across the wrap |
| RingBuffers.RingBuffer.Pop | src/lib/ring_buffer.c:114-124 | takes the byte written last |
| Pipes.PipeInode.TryRead | src/fs/pipe.c:92-111 | the locked part of a read on the ring is a read of the byte queue |
| Pipes.PipeInode.TryWrite | src/fs/pipe.c:60-80 | the locked part of a write on the ring is a write to the byte queue |
| Pipes.StepKeeps | src/fs/pipe.c:25-113 | every step keeps: a sleeping reader means an empty pipe with a writer, a sleeping writer a full one with a reader |
| Pipes.RunKeeps | src/fs/pipe.c:25-113 | over every run the bytes read are a prefix of those written and the pipe holds the rest |
| Pipes.ReadReturnsZero | src/fs/pipe.c:92-113 | a read returns 0 exactly at the end of the stream, or when it asks for nothing of a non-empty pipe |
| Pipes.ReadOutcome | src/fs/pipe.c:83-113 | an empty pipe gives 0, -EAGAIN or a sleep, by its writers and O_NONBLOCK; any other gives all it has of what is asked for, and wakes every writer |
| Pipes.WriteOutcome | src/fs/pipe.c:51-81 | a pipe without readers gives -EPIPE, a full one -EAGAIN or a sleep; any other takes all that fits, and wakes every reader |
| Pipes.TransfersInOrder | src/fs/pipe.c:51-113 | a positive return value is the number of bytes moved, in stream order |
| SocketRights.Endpoint.DiscardRights | src/fs/socket.c:163-175 | exactly the rights behind the position go, each with its reference |
| SocketRights.Endpoint.TakeRight | src/fs/socket.c:177-192 | a right is taken only where its message starts and something was read |
| SocketRights.Endpoint.ReadData | src/fs/socket.c:194-248 | the bytes are those at the read position, and bytes, right and remaining rights are as planned |
| SocketRights.RightsStayAligned | src/fs/socket.c:208-236 | a recvmsg-style read gets as many bytes as it asks for and are there, up to the next message with a right; it loses no right and takes one only at its message's first byte; a plain read drops exactly those it passes |
| SocketRights.Endpoint.PeerWrite | src/fs/socket.c:255-286 | writes what fits, or reports the closed end |
| SocketRights.Endpoint.QueueRight | src/fs/socket.c:288-300 | the right and its reference are queued behind the others, unless the queue is full |
| SocketRights.Endpoint.ReleaseRights | src/fs/socket.c:117-129 | a socket that goes away gives back each queued right's reference |
| SocketRights.ReadsProgress | src/fs/socket.c:208-236 | a read that asks for something of a non-empty stream gets something, whatever rights are queued |
| SocketRights.Endpoint.SendMessage | src/fs/socket.c:831-873 | the whole message goes onto the stream with its right at its first byte, or nothing does |
| SocketRights.Endpoint.ShutdownRead | src/fs/socket.c:720-727 | unread bytes and their rights go, and the positions meet |
| LogRing.HeaderRoundTrip | src/kernel/logbuf.c:274-280 | the fields of a record header read back as they were stored |
| LogRing.RetainedIs | src/kernel/logbuf.c:248-294 | what the log is to hold is a suffix of all records that fits, and no longer suffix would |
| LogRing.RetainedStep | src/kernel/logbuf.c:271-288 | one more record needs only what was retained so far |
| LogRing.OlderIsAbsent | src/kernel/logbuf.c:226-230 | a number the signed comparison calls older has no record |
| LogRing.NumberedLookup | src/kernel/logbuf.c:84-101 | exactly the numbers of the last records have one, each its own, across the wrap of the counter |
| LogRing.DecimalValue | src/kernel/logbuf.c:103-117 | a printed number reads back as itself, without leading zeroes |
| LogRing.KmsgLineFits | src/kernel/logbuf.c:153-173 | a line fits the buffer of LOG_LINE_MAX + 64 bytes |
| LogRing.SyslogLineFits | src/kernel/logbuf.c:175-194 | so does the syslog form |
| LogRing.KmsgParses | src/kernel/logbuf.c:153-173 | priority, sequence number, time, flags and text are read back from the line of every record |
| LogRing.SyslogParses | src/kernel/logbuf.c:175-194 | priority, seconds, six digits of microseconds and text are read back from the syslog line |
| LogRing.SyslogTextParses | src/kernel/logbuf.c:398-420 | in the text of several records the line of each stands behind those before it and gives it back |
| LogRing.AppendFixed | src/kernel/logbuf.c:135-151 | at least the wanted number of digits, zeroes in front |
| LogRing.LogBuf.CopyToLog | src/kernel/logbuf.c:30-42 | the bytes lie in the ring from the offset on, across the end |
| LogRing.LogBuf.CopyFromLog | src/kernel/logbuf.c:44-56 | the bytes in the ring from the offset on |
| LogRing.LogBuf.DropOldest | src/kernel/logbuf.c:58-71 | the oldest record goes |
| LogRing.LogBuf.Store | src/kernel/logbuf.c:248-294 | one record is added, and the log holds the longest suffix of all records that fits |
| LogRing.LogBuf.FindSeq | src/kernel/logbuf.c:84-101 | where the record with a number starts, or -1 |
| LogRing.LogBuf.ReadSeq | src/kernel/logbuf.c:216-233 | the line of the record with that number, cut to size, from which, when it is not cut, every field and the text of the record read back; 0 on an empty log or at the next number, -EPIPE otherwise |
| LogRing.LogBuf.FormatSyslog | src/kernel/logbuf.c:398-435 | the lines of all records, cut at the size, and the log emptied on request |
| SignalFrames.CodeWritten | src/kernel/signal.c:286-288 | the three overlapping words are the return code: pop, mov, int |
| SignalFrames.ReturnRestores | src/kernel/signal.c:211-246 | a handler's ret runs the return code into do_sigreturn, which restores the saved registers and mask |
| SignalFrames.FlagsMixed | src/kernel/signal.c:237-238 | exactly the flags in 0x40DD5 come from the context |
| SignalFrames.Process.SetupFrame | src/kernel/signal.c:248-293 | all 24 words and the return code lie in the frame and nothing else changes, or the process dies for want of room |
| SignalFrames.FrameLayout | src/kernel/signal.c:248-293 | which word of the frame holds which register, mask and fault address |
| SignalFrames.Process.CheckSignals | src/kernel/signal.c:320-391 | the signals to handle are the unblocked pending ones with a handler, unless one is fatal, and then the lowest such, which stays pending; which signals stop the process, whether children are reaped, which system calls are interrupted |
| SignalFrames.Process.TakeSignals | src/kernel/signal.c:320-391 | the loop looks at the unblocked pending signals, lowest first, up to a fatal one |
| SignalFrames.HasIs | src/kernel/signal.c:323-334 | bit n - 1 of a mask, told by division |
| SignalFrames.HandlersAscend | src/kernel/signal.c:406-415 | a handler is entered for each unblocked pending signal that has one, in ascending order |
| SignalFrames.MasksBlock | src/kernel/signal.c:415-422 | the accumulated mask blocks what was blocked and what the masks of those handlers say, and nothing else |
| SignalFrames.SyscallOutcome | src/kernel/signal.c:383-400 | an interrupted system call returns -EINTR when a handler asks for that, else it is made again from its int $0x80; nothing else changes |
| SignalFrames.Process.BuildFrames | src/kernel/signal.c:397-432 | one frame per signal, the lowest first, each with the mask and entry before it; fails exactly when they do not fit |
| SignalFrames.Process.DoSignal | src/kernel/signal.c:304-433 | the thread is set up to enter the highest signal's handler with all frames in place and the accumulated mask |
| SignalFrames.Process.DoSigreturn | src/kernel/signal.c:211-246 | restores registers and mask from the context, or dies when it cannot be read |
| SignalFrames.UnwindOne | src/kernel/signal.c:211-293 | returning from a handler enters the one below it |
| SignalFrames.Unwind | src/kernel/signal.c:211-433 | every handler is entered once, highest first, with its argument, stack and mask, and at the end registers, stack, program counter and mask are those from before delivery |
| SignalFrames.HandlerMay | src/kernel/signal.c:211-293 | what a handler is free to do: anything with its registers but esp, and with memory outside the frames |
| SignalFrames.MaskComesBack | src/kernel/signal.c:221 | filtering by the blockable signals does not change a mask that blocks no others |
| MarioImages.Writer.PourBytes | rd/tools/rd-make.c:271-290 | pouring fills block after block, each naming the next |
| MarioImages.Writer.PourEntry | rd/tools/rd-make.c:271-290 | directory entries are not split across blocks |
| MarioImages.Writer.CopyFile | rd/tools/rd-make.c:453-481 | a file becomes the chain of its bytes, and its entry names the first block |
| MarioImages.Writer.Pass1 | rd/tools/rd-make.c:349-403 | a directory becomes the chain of its entries, without special files; fails exactly when a name is too long |
| MarioImages.Writer.Pass2 | rd/tools/rd-make.c:520-562 | finishes every entry and lays out everything below the directory, and where that leaves the file position |
| MarioImages.Writer.CopyDir | rd/tools/rd-make.c:570-600 | the directory and all below it are laid out at the end of the image, and only its own entry changes before it |
| MarioImages.Writer.TruncateRd | rd/tools/rd-make.c:778-793 | the free chain is written from the file position on |
| MarioImages.DecideNrBlock | rd/tools/rd-make.c:748-776 | at least the blocks written, in whole pages, and within the limit |
| MarioImages.DecidedIs | rd/tools/rd-make.c:748-776 | the size asked for, rounded up to pages, if that is enough; else room for at least 1 MB more and half as much again, within the limit |
| MarioImages.Writer.MakeImage | rd/tools/rd-make.c:815-848 | the image for every tree and its exit status; the image is the intended one if and only if the scan of the tree ends at the end of the file or there is no free block (`MarioImages.ArchivedReadsBack` says what that one shows); the size check passes then, if it finds the image |
| MarioImages.EndPosIs | rd/tools/rd-make.c:520-562 | the file position after the scan, told from the tree: where the last item with blocks ends, unless a full directory block was finished since |
| MarioImages.EndPosIff | rd/tools/rd-make.c:554-561 | it is the end of the file if and only if the tree satisfies EndsAtEnd |
| MarioImages.TreeOverwritten | rd/tools/rd-make.c:778-793 | otherwise the image is too short and the free chain replaces blocks of the tree, from that position on |
| MarioImages.DamageUnnoticedIff | rd/tools/rd-make.c:828-833 | the size check lets a damaged image through if and only if whole pages of blocks are lost, or the free chain fits into the tree and that fills its pages |
| MarioImages.SmallDirsEndAtEnd | rd/tools/rd-make.c:520-562 | when no directory has nine entries the scan ends at the end of the file |
| MarioImages.NineEntriesSpoil | rd/tools/rd-make.c:554-561 | in a root of nine entries with one file of any contents, the file's first block is replaced by a free one and the image is too short |
| MarioImages.NineEntriesAccepted | rd/tools/rd-make.c:828-833 | the size check refuses that image for a file of one byte and accepts it for a file of eight blocks |
| MarioImages.FindDirEntry | rd/tools/rd-explorer.c:59-90 | the walk over slots and blocks is the lookup |
| MarioImages.PrintFile | rd/tools/rd-explorer.c:135-165 | prints the bytes along the chain, also when the size fills the last block |
| MarioImages.GatherChain | rd/tools/rd-explorer.c:135-165 | walking a file's chain gives its bytes |
| MarioImages.LayoutShows | rd/tools/rd-explorer.c:59-165 | every directory of an image finds exactly its items, with . and .. leading to directories, and shows each |
| MarioImages.ImageRoundTrip | rd/tools/rd-explorer.c:59-165 | in a finished image every path leads to the bytes that were archived |
| MarioImages.KeptResolves | rd/tools/rd-make.c:349-403 | every file and symlink that was listed is archived unchanged under the same path, and every directory with what is kept of it |
| MarioImages.KeptOnly | rd/tools/rd-make.c:349-403 | nothing else is archived |
| MarioImages.ResolvesItem | rd/tools/rd-explorer.c:92-133 | what a path of a tree leads to |
| MarioImages.ArchivedReadsBack | rd/tools/rd-make.c:349-600 | from the directory listed to what is read: the path of every file and symlink leads from the super block's root to its kind, its size and its bytes, that of every directory to a directory, and no other path of ordinary names leads anywhere |
| MarioImages.DraftBlocks | rd/tools/rd-make.c:371-395 | the kind, size and block count of an entry are those of its file |
| MarioImages.LayoutChains | rd/tools/rd-make.c:271-301 | every file, directory and symlink is one chain that ends in 0 |
| MarioImages.TilesPartition | rd/tools/rd-make.c:271-301 | consecutive chains leave no block out and share none |
| MarioImages.ImagePartition | rd/tools/rd-make.c:778-813 | super block, the chains of the tree and the free chain cover all blocks; the free chain starts and is as long as the super block says and ends in 0; the number of blocks and the root are those the super block names |

## Left out

- Locks, interrupt masking, TLB flushes, segment loads and inline assembly: a section under a lock is one step, and threads interleave between steps.
- WideDivision.Udiv128By64To64Default: models the portable routine; the `divq` instruction used on x86-64 is not modelled.
- Allocation failures are parameters where the source reports them; where it only asserts (`unmap_fixup`), memory is there.
- AddressSpaces: one thread at a time, since `do_munmap` drops `mm_lock` between unlinking and putting back; `vm_inode`, the share ring, `sys_brk`, `sys_msync` and `sys_mprotect` are not modelled.
- PageFrames.Memory.DoFork: the areas of the child appear before its page tables, where the source copies the page tables first; nothing runs in between.
- CopyOnWrite: page tables are one map from process and page to entry, so the two levels and the failure to allocate a table are not modelled; nor are out-of-memory pages, shared anonymous memory, `get_shared_page`, truncation of mapped files, and areas that are writable but not readable.
- PageFrames.Memory.WriteByte: the faults of one access and the access itself are one step.
- BufferCache: device writes succeed, b_sem is a lock that any waiter may get (its queue is in `Semaphore.dfy`), and what holders store is one step with set_dirty.
- PageFrames.SyncEntryKeeps: files have no size here; the source writes a whole page back, which at a partial last page can also make the file longer.
- PageFrames.Memory.FilemapSyncPte: leaves out the same growth of the file.
- FilePages: one call at a time; the statistics, the mmap write-back path (in `CopyOnWrite.dfy` by page) and file systems below `read_page` are left out.
- FilePages.FileMap.GetPage: with one call at a time no entry is seen while it is loading, so nobody waits for another loader, and no loader finds its entry invalidated.
- FilePages.FileMap.InvalidatePages: leaves out entries that are loading, which the source marks and leaves to their loader.
- FilePages.FileMap.InvalidateInode: leaves out the same.
- FilePages.FileMap.Truncate: models the callers that shorten a file; growing one needs no cache call.
- Scheduler: the edge from stopped to running in `send_sig`, changing a task's allowed CPUs, waking an idle task, reschedule interrupts and the kernel stacks are not modelled; a task is freed only when no CPU runs it.
- Semaphores: stray wakeups are not modelled.
- Pipes: opening a FIFO counts its ends but does not wait for the other; SIGPIPE and poll are left out.
- SocketRights: one end of a connected pair with its rights queue; waiting and waking, addresses, accept, credentials and what `sys_recvmsg` does with a file it cannot install are left out. Positions are unbounded.
- SocketRights.Endpoint.SendMessage: the parts of the message are fixed; the source reads their addresses and lengths from user memory a second time.
- LogRing.LogBuf.Store: the branch for a record larger than the log cannot be reached with a line limit of 1024 bytes and is left out; so are waiting readers and the console level.
- SignalFrames.Unwind: handlers may do anything but move the stack or change frames other than their own argument; signals that arrive while they run are not modelled.
- SignalFrames.Process.CheckSignals: says which signals stop the process, but not what happens while it is stopped: other signals that arrive then, and the notice to the parent.
- SignalFrames.Process.DoSignal: leaves out the same.
- MarioImages: directory entries are records in slots of 54 bytes rather than bytes, and times, flags and permission bits are left out; so are device lists, file system errors, and files that change while they are copied. Names are distinct within a directory.
- MarioImages.Writer.CopyItem: the file behind a listed name is the one scandir listed at that place.
- `src/mm/kmalloc.c`, the console, drivers, SMP bring-up, ELF loading, procfs and everything under `app/`.
