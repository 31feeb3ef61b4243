# Argentum: verified models of its memory, file-system and scheduling core

Argentum is a small ARMv7 kernel. Most of its core is pointer-heavy state that is changed in
place and whose invariants are written only as assertions, panics and comments. This project
models eleven parts of it in Dafny and proves those invariants, and what they are for.

| files | what they model |
|---|---|
| `Buddy.dfy`, `PageAllocator.dfy` | the buddy page allocator: a theory of canonical free maps, and the allocator's lists and bitmaps proved against it |
| `PrivateMemory.dfy`, `Vm.dfy` | copy-on-write address spaces over shared page frames; the reference is a memory in which nothing is shared |
| `Ext2Tree.dfy`, `Ext2Inode.dfy` | the indirect-block tree of an inode as a sparse map; growing and truncating it |
| `Bitmap.dfy`, `Ext2Alloc.dfy` | the block bitmaps, group counters and superblock counter |
| `TreeBins.dfy`, `TrieHeap.dfy`, `TrieSearch.dfy`, `Tmalloc.dfy` | the tree bins of the C library's allocator: insertion, removal and best-fit search |
| `SlabGeometry.dfy`, `ObjectPool.dfy` | object pools: layout arithmetic and slab lists |
| `SchedState.dfy`, `Inheritance.dfy`, `SchedSteps.dfy`, `Sched.dfy`, `SchedLaws.dfy`, `SchedRuns.dfy` | run and wait queues, mutexes, priority inheritance; laws of all runs, and runs in which assertions fail |
| `TimeoutHistory.dfy`, `Timers.dfy`, `TimerRuns.dfy` | the delta-encoded timeout queue and periodic timers, against a history of events |
| `Signals.dfy`, `SignalRuns.dfy` | pending signals, stop and continue, and the order of delivery |
| `PathCache.dfy` | the reference-counted tree of path nodes |
| `BufferCache.dfy` | the buffer cache against the disk |
| `Arith.dfy`, `Lists.dfy`, `Paths.dfy` | shared facts about numbers, lists and paths |

Conventions. Intrusive lists are sequences. A locked section is one atomic step, and the `Execute`,
`RunOps` and `Run` members take arbitrary sequences of steps. Where an `Execute` returns a `trace`, it
holds the states in between, each two of them tied by what the step does, and laws about all runs are
lemmas about traces. A panic or a failed assertion does not
return: either the model proves it cannot be reached (it then appears as a precondition of an
internal method that every caller meets, or as `assert false`), or the method returns a value that
stands for it and says exactly when it does. I/O, clocks and the choice of addresses are parameters.

Some intended properties do not hold of the code without a condition.  Each has its exact condition,
and an input or a run that shows the condition is needed:

- A copy to user space is seen by the other address spaces exactly if it touches a page that another
  space maps and that is not copy-on-write: `Vm.IsolatedIff`, and `Vm.Leak` as a run.
- Truncation leaves nothing behind if and only if no indirect root lies past the old end:
  `Ext2Tree.TruncatedExactlyWhen`, and `Ext2Tree.LeftoverKept` as an inode.
- The buffer cache is invisible if and only if the blocks asked for share no bytes, which one block
  size per device guarantees: `BufferCache.TransparentIff`, and `BufferCache.Stale`.
- The assertion of `k_mutex_try_lock_locked` on priorities fails exactly when the mutex is free and better than
  the thread: `Sched.Scheduler.TryLock`, and `SchedRuns.LockAfterUnlock` as a run.
- The assertion that a mutex has an owner fails exactly when a boost is passed on, through values
  that it improves, to a mutex without one: `Sched.Scheduler.MayRaise`, and
  `SchedRuns.BoostAfterUnlock` as a run.
- The inequalities between owner, mutex and waiter are kept by every step but the giving up of a mutex
  that several threads wait for: `Sched.Scheduler.Perform`, and `SchedRuns.BoostAfterUnlock` as a run.
- The reference counts of path nodes are kept by every step but the removal of a node that is off its
  parent's list already: `PathCache.RemovedIff`, and `PathCache.UnlinkTwice` as a run.
- A periodic timer is queued again after its callback exactly if the callback has neither stopped it
  nor left it queued; in the latter case an assertion fails: `Timers.TimerQueue.Finish`, and
  `Timers.StartedFromCallback` as a run.
- The objects of a pool have different addresses exactly for sizes that are not zero, and a pool of
  size zero divides by zero when its first slab is made: `SlabGeometry.DistinctIff`,
  `ObjectPool.Pool.Get`, with `SlabGeometry.PlanEmpty` and `ObjectPool.FirstEmptyObject` as runs.
- The layout of a pool is computed without a division by zero exactly for sizes whose rounding does not
  wrap: `SlabGeometry.Plan`, and `SlabGeometry.PlanLargest` as an input.
- A block can be allocated exactly if a group that is whole has a free one; a last group that is not
  whole is never searched: `Ext2Alloc.BlockAllocator.BlockAlloc`, and `Ext2Alloc.SmallDisk` as a run.
- Sending a signal fails an assertion exactly if its number is neither zero nor in the table and some
  process is meant: `Signals.System.Generate`, and `Signals.KillOutside` as a run.
- Reading or changing the action of a signal stays inside the table exactly if the number is not zero:
  `Signals.System.ChangeAction`, and `Signals.ActionOfZero` as a run.

## Model

| member | source | states |
|---|---|---|
| `Buddy.Completeness` | kernel/mm/page.c:165-210 | in a canonical free map a block of order k can be allocated if and only if some aligned run of 2^k pages is entirely free |
| `Buddy.CanonicalUnique` | kernel/mm/page.c:218-247 | the set of free blocks is determined by the set of free pages |
| `Buddy.MergeCorrect` | kernel/mm/page.c:218-247 | freeing with coalescing keeps the map canonical and frees exactly the pages of the block |
| `Buddy.SplitCorrect` | kernel/mm/page.c:189-194 | splitting down keeps the map canonical and gives back all of the block but the part that is kept |
| `Buddy.TakeCorrect` | kernel/mm/page.c:165-210 | allocation takes a block whose pages were all free, and only those pages |
| `Buddy.AllocThenFree` | kernel/mm/page.c:165-247 | allocating and then freeing restores the free blocks exactly |
| `Buddy.FreesCommute` | kernel/mm/page.c:218-247 | two frees give the same free blocks in either order |
| `Buddy.RunSafe` | kernel/mm/page.c:165-247 | in every run of allocations and frees the map stays canonical and free and allocated blocks stay disjoint |
| `Buddy.SplitLast` | kernel/mm/page.c:189-194 | splitting keeps the last part of the block |
| `Buddy.SparesRuns` | kernel/mm/page.c:173-182 | an allocation for which a smaller block would do leaves every larger request as it was |
| `PageAlloc.XorIsBuddy` | kernel/mm/page.c:292-296 | flipping bit k of a page number gives the first page of the buddy block |
| `PageAlloc.CountGains` | kernel/mm/page.c:218-247 | the number of free pages grows by the size of a freed block |
| `PageAlloc.PageAllocator.Contains` | kernel/mm/page.c:306-313 | the bitmap test answers whether the block is free |
| `PageAlloc.PageAllocator.ListAdd` | kernel/mm/page.c:321-335 | adding keeps list and bitmap in agreement; the block was not listed |
| `PageAlloc.PageAllocator.ListRemove` | kernel/mm/page.c:343-357 | removing keeps list and bitmap in agreement; the block was listed |
| `PageAlloc.PageAllocator.FindOrder` | kernel/mm/page.c:173-182 | the first list that is not empty: all smaller ones are empty, and it fails only if no free run of the size exists |
| `PageAlloc.PageAllocator.TakeBlock` | kernel/mm/page.c:184-210 | the first block of the list is cut down and its last part handed out; larger blocks stay free |
| `PageAlloc.PageAllocator.SplitDown` | kernel/mm/page.c:189-194 | the splitting loop computes the split of the theory on lists and bitmaps |
| `PageAlloc.PageAllocator.AllocBlock` | kernel/mm/page.c:165-210 | out of memory if and only if no aligned free run exists; else the last part of the first block of the smallest order that will do; larger free blocks stay, and the count drops by its size |
| `PageAlloc.PageAllocator.Coalesce` | kernel/mm/page.c:231-241 | the merging loop ends at the block that full coalescing yields |
| `PageAlloc.PageAllocator.FreeBlock` | kernel/mm/page.c:218-247 | the free map becomes the fully merged one and gains exactly the block's pages |
| `PageAlloc.PageAllocator.AllocOne` | kernel/include/kernel/page.h:130-134 | one free page is taken, unless there is none |
| `PageAlloc.PageAllocator.FreeOne` | kernel/include/kernel/page.h:141-145 | exactly this page becomes free |
| `PageAlloc.PageAllocator.LargestBlock` | kernel/mm/page.c:264-276 | the largest aligned block that starts at a page and ends in the region |
| `PageAlloc.PageAllocator.FreeRegion` | kernel/mm/page.c:255-282 | exactly the whole pages of the region become free |
| `PrivateMemory.WriteChunk` | kernel/mm/vm.c:222-255 | writing a stretch inside one page is writing it byte by byte |
| `PrivateMemory.ReadChunk` | kernel/mm/vm.c:258-291 | the same for reading |
| `PrivateMemory.RangePages` | kernel/mm/vm.c:293-301 | a range that starts at a page takes exactly the pages that hold one of its bytes |
| `PrivateMemory.WriteKeeps` | kernel/mm/vm.c:222-255 | a write stays in its own space and changes no permission bit |
| `PrivateMemory.CopiedKeeps` | kernel/mm/vm.c:344-390 | a clone touches its target only and succeeds if and only if the source maps the whole range |
| `PrivateMemory.CopiedCell` | kernel/mm/vm.c:344-390 | the target of a successful clone holds the source's pages in the range, with the source's permission bits, and its own elsewhere |
| `PrivateMemory.UnmapMapped` | kernel/mm/vm.c:293-341 | unmapping a range leaves nothing of what was mapped there |
| `PrivateMemory.LegalFromTheStart` | kernel/mm/vm.c:189-255 | runs of writes can be judged by the permissions they start with |
| `PrivateMemory.NonInterference` | kernel/mm/vm.c:118-390 | what a space that is not cloned into holds depends on its own operations only |
| `PrivateMemory.ForkIsolated` | kernel/mm/vm.c:344-390 | after a fork parent and child each hold what they would hold alone, the child starting from the parent's memory |
| `Vm.CountOf` | kernel/mm/vm.c:61-110 | a mapped page's reference count is its number of mappings, and is one exactly if this is the only one |
| `Vm.StoreSeen` | kernel/mm/vm.c:222-255 | a store into a page frame is seen by exactly the keys that map it |
| `Vm.LeakyMeans` | kernel/mm/vm.c:150-171 | a store reaches another space exactly if the page is not copy-on-write and that space maps it |
| `Vm.StepLanded` | kernel/mm/vm.c:222-255 | what another space in reach then sees: the bytes of the data that fall into the page, laid over what was there |
| `Vm.ReachNow` | kernel/mm/vm.c:118-171 | while pages are written one after the other, those still to come reach what they reached, but for the mappings that have been given a copy of their own |
| `Vm.StepExact` | kernel/mm/vm.c:222-255 | after each page, every mapping sees its old contents with one layer of data for each page written that it is in reach of |
| `Vm.OneLayer` | kernel/mm/vm.c:222-255 | so a second mapping of a read-only page, in the same space too, sees the data that fall into the page |
| `Vm.StoreIsolatedIff` | kernel/mm/vm.c:239-247 | one store is invisible to other spaces if and only if the page is not leaky or the data are what is there |
| `Vm.IsolatedIff` | kernel/mm/vm.c:222-255 | other spaces see what they saw if no page touched is leaky, and for data that differ from what is there only then |
| `Vm.Leak` | kernel/mm/vm.c:222-390 | a read-only page is mapped, cloned and written to for the parent: the child reads zero before and seven after |
| `Vm.VmSystem.PageInsert` | kernel/mm/vm.c:61-87 | the entry is mapped, counts stay equal to the number of mappings, and a page whose last mapping went is freed |
| `Vm.VmSystem.PageRemove` | kernel/mm/vm.c:93-110 | the entry goes, and its page is freed exactly when this was its last mapping |
| `Vm.VmSystem.PageCow` | kernel/mm/vm.c:118-148 | breaking copy-on-write gives a private writable page with the same bytes; it fails exactly for a shared page when none is free |
| `Vm.VmSystem.LookupCow` | kernel/mm/vm.c:150-171 | a fault, out of memory or the page, each exactly when; the keys that map the page are those a store is to reach |
| `Vm.VmSystem.StoreChunk` | kernel/mm/vm.c:239-247 | exactly the keys in reach see the data, and when it faults or memory is out nothing changes |
| `Vm.VmSystem.CopyOut` | kernel/mm/vm.c:222-255 | a byte-by-byte write to this space's memory, with the same fault, up to where memory runs out; and what every mapping, of this space or another, sees of it, exactly |
| `Vm.VmSystem.Clear` | kernel/mm/vm.c:189-219 | the same for writing zeros |
| `Vm.VmSystem.CopyIn` | kernel/mm/vm.c:258-291 | it is a byte-by-byte read of this space's memory, with the same fault |
| `Vm.VmSystem.HandleFault` | kernel/mm/vm.c:545-571 | a fault is resolved exactly on copy-on-write pages for which a page is left, and nothing that is seen changes |
| `Vm.VmSystem.UserAlloc` | kernel/mm/vm.c:293-326 | the range is mapped to zeroed pages, or unmapped again as far as it got; over an unmapped range memory runs out exactly if too few pages are free |
| `Vm.VmSystem.UserFree` | kernel/mm/vm.c:329-341 | exactly the range is unmapped and exactly the pages without another mapping are freed |
| `Vm.VmSystem.UserClone` | kernel/mm/vm.c:344-390 | the memory seen, its permission bits included, becomes that of a page-by-page copy, also when it stops at a gap; writable pages become shared copy-on-write |
| `Vm.VmSystem.Perform` | kernel/mm/vm.c:118-390 | one operation does to what is seen what it does to private memory, unless it asks for more pages than are free |
| `Vm.VmSystem.RunOps` | kernel/mm/vm.c:118-390 | so does every run of writes, clears, faults, maps, unmaps and clones of any number of spaces |
| `Vm.VmSystem.ForkThenRun` | kernel/mm/vm.c:344-390 | after a fork and any run, parent and child each see what they would have seen alone |
| `Ext2Tree.InstallRenames` | kernel/fs/ext2_inode.c:161-169 | storing a fresh block in a slot changes what one path names |
| `Ext2Tree.GrowOwned` | kernel/fs/ext2_inode.c:195-232 | every block is still reached by exactly one path and the tree has one block more |
| `Ext2Tree.ShrinkOwned` | kernel/fs/ext2_inode.c:237-268 | the same for taking a block out |
| `Ext2Tree.PathOfFirst` | kernel/fs/ext2_inode.c:174-215 | the path computed for a logical block leads to that block |
| `Ext2Tree.GrewBlock` | kernel/fs/ext2_inode.c:146-235 | growing the path to one logical block changes no other block's mapping |
| `Ext2Tree.CutKeeps` | kernel/fs/ext2_inode.c:237-268 | cutting a subtree keeps what starts below the cut |
| `Ext2Tree.CutGoes` | kernel/fs/ext2_inode.c:237-268 | and drops what starts at or past it |
| `Ext2Tree.TruncatedBelow` | kernel/fs/ext2_inode.c:270-309 | whatever lay past the old end, logical blocks below the new length keep their mapping |
| `Ext2Tree.TruncatedData` | kernel/fs/ext2_inode.c:270-309 | logical blocks below the new length keep their mapping and all others are unmapped |
| `Ext2Tree.TruncatedExactlyWhen` | kernel/fs/ext2_inode.c:270-309 | nothing at or past the new end is left if and only if no indirect root starts past the old end |
| `Ext2Tree.LeftoverKept` | kernel/fs/ext2_inode.c:270-309 | an inode that shows the condition is needed |
| `Ext2Inode.Inode.GetBlock` | kernel/fs/ext2_inode.c:146-235 | the mapped block is returned or a fresh zeroed one installed, no other mapping changes; with allocation it fails only when the blocks are exhausted, and leaves the map as it was; blocks in use and the superblock's count add up to the same |
| `Ext2Inode.Inode.BlockAlloc` | kernel/fs/ext2_block_alloc.c:69-140 | none if the superblock's count is zero or below what is reserved, else the first free block of those that are searched |
| `Ext2Inode.AllocTogether` | kernel/fs/ext2_block_alloc.c:69-140 | the set of used blocks that the inode works on stands for the bitmaps: both allocate the same block or neither does, and stay in step |
| `Ext2Inode.FreeTogether` | kernel/fs/ext2_block_alloc.c:147-174 | and stay in step when a block is freed |
| `Ext2Inode.Inode.Attach` | kernel/fs/ext2_inode.c:197-204 | a fresh zeroed block is hung into an empty slot and accounted for, unless the blocks are exhausted |
| `Ext2Inode.Inode.FindLevel` | kernel/fs/ext2_inode.c:174-193 | the loop over levels finds the indirect root that covers a block, or none |
| `Ext2Inode.Inode.Descend` | kernel/fs/ext2_inode.c:195-232 | the loop over levels walks the path of the block |
| `Ext2Inode.Inode.TruncIndirect` | kernel/fs/ext2_inode.c:237-268 | the recursion cuts a subtree at a position, freeing each dropped block once |
| `Ext2Inode.Inode.TruncLevel` | kernel/fs/ext2_inode.c:293-308 | one indirect root is cut as far as the truncation reaches into it |
| `Ext2Inode.Inode.Trunc` | kernel/fs/ext2_inode.c:270-309 | the tree becomes the truncated one, freed blocks are exactly the dropped ones, and the block count matches the tree; bytes below the new length keep their block, and if no block from the old size on was mapped, none from the new length on is |
| `Ext2Inode.CeilMeans` | kernel/fs/ext2_inode.c:275-276 | a block is past the rounded length exactly if its first byte is past the length |
| `Ext2Inode.TruncatedBytes` | kernel/fs/ext2_inode.c:270-309 | what a truncation in blocks keeps and drops, in bytes |
| `Bitmap.OneBit` | kernel/fs/ext2_bitmap.c:12-28 | setting and clearing change one bit and no other |
| `Bitmap.SetThenClear` | kernel/fs/ext2_bitmap.c:18-28 | clearing undoes setting |
| `Bitmap.ClearThenSet` | kernel/fs/ext2_bitmap.c:18-28 | setting undoes clearing |
| `Bitmap.ClearBitsSet` | kernel/fs/ext2_bitmap.c:18-22 | setting a clear bit lowers the number of clear bits by one |
| `Bitmap.ClearBitsClear` | kernel/fs/ext2_bitmap.c:24-28 | clearing a set bit raises it by one |
| `Ext2Alloc.LeastFree` | kernel/fs/ext2_block_alloc.c:69-140 | every block below the one found was taken |
| `Ext2Alloc.AllocThenFree` | kernel/fs/ext2_block_alloc.c:147-174 | freeing an allocated block restores the bitmap |
| `Ext2Alloc.BlockAllocator.BitmapAlloc` | kernel/fs/ext2_bitmap.c:42-77 | the first clear bit is set, or all bits are set |
| `Ext2Alloc.BlockAllocator.BitmapFree` | kernel/fs/ext2_bitmap.c:88-115 | the bit is clear, every other bit of every group is as it was, and setting it again restores the bitmaps |
| `Ext2Alloc.BlockAllocator.GroupAlloc` | kernel/fs/ext2_block_alloc.c:40-62 | a group with a free count yields a block, so its panic cannot be reached |
| `Ext2Alloc.BlockAllocator.BlockAlloc` | kernel/fs/ext2_block_alloc.c:69-140 | the least free block of the whole groups is taken; no space exactly for an empty count or one below the reserve; out of memory exactly when this caller is admitted and the whole groups are full; the superblock count minus the group counts is constant |
| `Ext2Alloc.BlockAllocator.BlockFree` | kernel/fs/ext2_block_alloc.c:147-174 | exactly this block becomes free and both counts follow |
| `Ext2Alloc.Groups` | kernel/fs/ext2_block_alloc.c:75-75 | rounding the number of groups down leaves out the last one exactly if it is not whole |
| `Ext2Alloc.SmallDisk` | kernel/fs/ext2_block_alloc.c:69-174 | on every disk smaller than one group a block can be given back and then none allocated |
| `TreeBins.FloorLogCorrect` | lib/argentum/stdlib/malloc.c:2892-2908 | the branch-free shifts compute the base-2 logarithm |
| `TreeBins.IndexRange` | lib/argentum/stdlib/malloc.c:2891-2923 | bin I holds the sizes from minsize(I) up to minsize(I+1), the last bin has no upper end |
| `TreeBins.IndexMono` | lib/argentum/stdlib/malloc.c:2891-2908 | smaller bins hold smaller sizes |
| `TreeBins.RegisterStep` | lib/argentum/stdlib/malloc.c:2915-2918 | the sign bit of the shifted size is the next size bit, and shifting moves to the one after it |
| `TrieHeap.LeftIsSmaller` | lib/argentum/stdlib/malloc.c:3659-3706 | sizes below a left child are smaller than sizes below its sibling |
| `TrieHeap.ReplaceInv` | lib/argentum/stdlib/malloc.c:3757-3796 | putting a chunk in the place of another keeps prefixes, rings and parent links |
| `TrieHeap.PruneInv` | lib/argentum/stdlib/malloc.c:3740-3756 | so does cutting off a leaf |
| `TrieHeap.AppendInv` | lib/argentum/stdlib/malloc.c:3692-3704 | so does hanging a chunk of equal size into a node's ring |
| `TrieHeap.LeafCanReplace` | lib/argentum/stdlib/malloc.c:3710-3725 | any leaf below a node may take the node's place |
| `TrieHeap.SizeAbsent` | lib/argentum/stdlib/malloc.c:3673-3691 | if the way down to an empty slot does not show a size, no node has it |
| `TrieSearch.LeftStep` | lib/argentum/stdlib/malloc.c:4484-4491 | the leftmost walk leaves out only chunks that fit worse |
| `TrieSearch.NarrowStep` | lib/argentum/stdlib/malloc.c:4455-4472 | the descent leaves out only chunks that are too small or lie in or beyond the deepest untaken right subtree |
| `TrieSearch.OtherBins` | lib/argentum/stdlib/malloc.c:4474-4482 | chunks of smaller bins are too small and chunks of larger bins fit worse |
| `Tmalloc.TreeState.InsertLarge` | lib/argentum/stdlib/malloc.c:3659-3706 | the trie invariant is kept and exactly this chunk is added |
| `Tmalloc.TreeState.UnlinkLarge` | lib/argentum/stdlib/malloc.c:3727-3796 | the trie invariant is kept and exactly this chunk is removed |
| `Tmalloc.TreeState.RightmostLeaf` | lib/argentum/stdlib/malloc.c:3741-3755 | the loop ends at a leaf below the node and knows the slot that points at it |
| `Tmalloc.TreeState.DescendBin` | lib/argentum/stdlib/malloc.c:4451-4473 | what the descent leaves over is the subtree it returns and larger chunks |
| `Tmalloc.TreeState.WalkLeft` | lib/argentum/stdlib/malloc.c:4484-4491 | no chunk of the subtree fits better than the result |
| `Tmalloc.TreeState.FindBest` | lib/argentum/stdlib/malloc.c:4446-4491 | no tree chunk at all fits better than the result |
| `Tmalloc.TreeState.TmallocLarge` | lib/argentum/stdlib/malloc.c:4445-4513 | the smallest tree chunk of at least nb bytes is granted and split; nothing is granted if and only if every such chunk fits no better than the designated victim |
| `SlabGeometry.Plan` | kernel/core/object_pool.c:292-367 | refused for a bad alignment or if no order is roomy, else the smallest order that wastes at most an eighth, and a well-formed layout whose blocks are empty exactly for size zero; the division by zero happens exactly when rounding wraps |
| `SlabGeometry.PlanLargest` | kernel/core/object_pool.c:316-335 | the largest size makes the capacity a division by zero |
| `SlabGeometry.PlanEmpty` | kernel/core/object_pool.c:292-367 | size zero is accepted and puts 1018 objects at one address |
| `SlabGeometry.DistinctIff` | kernel/core/object_pool.c:376-381 | objects have different addresses if and only if blocks are not empty |
| `SlabGeometry.RoundUp32Means` | kernel/include/kernel/types.h:49-53 | rounding up in 32 bits is rounding up, or zero where the sum wraps |
| `SlabGeometry.AlignMeans` | kernel/core/object_pool.c:306-309 | the rounded alignment divides the page size and is a multiple of a word |
| `SlabGeometry.CapacityLargest` | kernel/core/object_pool.c:320-335 | the capacity is the largest number of objects that fit beside their tags and the descriptor |
| `SlabGeometry.RoomyMeans` | kernel/core/object_pool.c:335-339 | an order is accepted exactly if the remainder is at most an eighth of the block |
| `SlabGeometry.NextColourOk` | kernel/core/object_pool.c:425-430 | colours stay aligned and within the unused room |
| `SlabGeometry.ColourCycle` | kernel/core/object_pool.c:425-430 | slab n has the colour n modulo the number of colours, times the alignment |
| `SlabGeometry.EveryColour` | kernel/core/object_pool.c:425-430 | so every aligned offset within the unused room is used |
| `SlabGeometry.ObjectInside` | kernel/core/object_pool.c:439-453 | for every colour, objects end before the descriptor and the tags |
| `SlabGeometry.ObjectAligned` | kernel/core/object_pool.c:400-432 | objects are aligned because page blocks are |
| `SlabGeometry.BlockFound` | kernel/core/object_pool.c:201-202 | rounding an address inside a block down finds the block |
| `SlabGeometry.TagFound` | kernel/core/object_pool.c:369-381 | an object's index can be recovered from its address |
| `ObjectPool.LiveObjects` | kernel/core/object_pool.c:389-460 | objects in use are aligned, clear of the descriptor, inside their block and do not overlap |
| `ObjectPool.Owner` | kernel/core/object_pool.c:193-207 | rounding an object in use down leads to the slab and tag that own it |
| `ObjectPool.BuddyBlocks` | kernel/core/object_pool.c:400-404 | buddy blocks are aligned to their size and apart, as slabs need |
| `ObjectPool.Pool.CreateSlab` | kernel/core/object_pool.c:389-460 | all objects of a new slab are free, the last one first, and start at the colour, which moves on; its pages point to it, it goes to the back of the unused ones, and its assertion on the end holds; it divides by zero exactly for empty blocks |
| `ObjectPool.Pool.SlabGet` | kernel/core/object_pool.c:507-532 | the first object of the chain, which was not in use and now is; the slab goes to the back of the list its count names |
| `ObjectPool.Pool.Choose` | kernel/core/object_pool.c:160-178 | partly used slabs are preferred to unused ones and those to a new one |
| `ObjectPool.Pool.Get` | kernel/core/object_pool.c:152-185 | the object was not in use before, is the only one added and comes from the preferred slab; a new slab's block comes from the page allocator; it fails exactly when that has no free run, and divides by zero exactly when it has and objects are empty |
| `ObjectPool.FirstEmptyObject` | kernel/core/object_pool.c:369-374 | a run in which the first object of size zero is asked for |
| `ObjectPool.FreshBlock` | kernel/core/object_pool.c:400-404 | a block that the page allocator hands out is aligned and apart from those of all slabs |
| `ObjectPool.Pool.Put` | kernel/core/object_pool.c:193-207 | exactly this object stops being in use and becomes the first of its chain; its slab moves to the front of the list its count names, or stays where it is |
| `SchedState.OneList` | kernel/core/sched.c:46-77 | a thread is on at most one list, once, and its state names it |
| `SchedState.BestReady` | kernel/core/sched.c:58-77 | the first thread of the first non-empty run queue is a best ready one |
| `SchedState.SortedInsert` | kernel/core/sched.c:176-189 | insertion by priority keeps a list sorted |
| `Sched.Scheduler.Unlink` | kernel/include/kernel/core/list.h:67-77 | the thread leaves its list, or nothing happens if it is on none |
| `Sched.Scheduler.LinkBefore` | kernel/include/kernel/core/list.h:45-65 | a thread with a null link joins a list; the assertion is a precondition that all callers meet |
| `Sched.Scheduler.Enqueue` | kernel/core/sched.c:46-54 | the thread is ready, last on the run queue of its priority |
| `Sched.Scheduler.AddByPriority` | kernel/core/sched.c:176-189 | the thread stands behind all that are as good and before the first that is worse |
| `Sched.Scheduler.Dispatch` | kernel/core/sched.c:58-77 | the first thread of the best run queue gets the processor and leaves the queue, the others staying as they are; none runs only if none is ready |
| `Sched.Scheduler.Sleep` | kernel/core/sched.c:198-245 | the current thread waits on the queue, or on none, and gives up the processor |
| `Sched.Scheduler.Resume` | kernel/core/sched.c:275-301 | a waiting thread leaves its list, becomes ready at the back of its run queue and takes precedence if it is better; others are left alone |
| `Sched.Scheduler.MayYield` | kernel/core/sched.c:341-367 | the current thread gives way at once or at the end of the interrupt, exactly if the other is better |
| `Sched.Scheduler.WakeOne` | kernel/core/sched.c:319-339 | the first waiting thread and no other leaves the list and is woken, if there is one; on a mutex's queue it has the best priority |
| `Sched.Scheduler.Perform` | kernel/core/sched.c:46-339 | one locked section does exactly what its step is to do, and keeps the queues consistent; an assertion fails in it exactly for the lock of a better mutex or a boost that meets an ownerless one; every step but giving up a mutex with several waiters keeps the inequalities |
| `Sched.Scheduler.WakeAll` | kernel/core/sched.c:303-317 | waiting threads are woken one after the other, from the first on, until none is left or the caller gives way |
| `Sched.Scheduler.Yield` | kernel/core/thread.c:48-62 | the current thread goes behind its equals and gives up the processor |
| `Sched.Scheduler.Exit` | kernel/core/thread.c:150-172 | the current thread joins the threads to destroy |
| `Sched.Scheduler.ResumeThread` | kernel/core/thread.c:27-43 | suspended threads become ready, at the back of their run queue, others are refused; what this does to the queues, exactly |
| `Sched.Scheduler.IrqEnd` | kernel/core/irq.c:57-83 | a marked thread gives way at the end of the outermost interrupt, and only then; it goes to the back of its run queue, and no other queue changes |
| `Sched.Scheduler.MayRaise` | kernel/core/mutex.c:102-116 | boosting ends, also on a cycle of waits; only the chain of owners changes; the inequalities owner, mutex, waiter hold again; it fails if and only if the chain leads through worse values to a mutex without an owner |
| `Sched.Scheduler.Raise` | kernel/core/sched.c:247-273 | the thread moves to where its new priority belongs and passes it on; it fails exactly if what it waits for leads to a mutex without an owner |
| `Sched.Scheduler.Reprioritize` | kernel/core/sched.c:247-273 | queues stay consistent and mutex queues sorted when a priority changes; a ready thread goes to the back of its new run queue, a waiting one behind its equals |
| `Sched.Scheduler.TryLock` | kernel/core/mutex.c:118-135 | who gets a free mutex, and exactly when the priority assertion would fail |
| `Sched.Scheduler.Block` | kernel/core/mutex.c:159-189 | boosting for a new waiter gives each mutex and owner on the chain the better of its priority and the waiter's, and the waiter queues behind its equals; the same exact condition of failure |
| `Sched.Scheduler.Release` | kernel/core/mutex.c:226-237 | the mutex has no owner and its first waiter is ready; the inequalities stay if and only if no other waiter is left |
| `Sched.Scheduler.HighestPriority` | kernel/core/mutex.c:191-206 | the best priority of a list of mutexes |
| `Sched.Scheduler.Recalculate` | kernel/core/mutex.c:208-220 | the mutex has the best priority of its waiters, the thread the best of its own and its mutexes', and the inequalities stay |
| `Sched.Scheduler.Execute` | kernel/core/sched.c:46-339 | every run carries out its steps one by one and keeps each thread on the list its state names, so no null-link assertion fails; it ends at the first step that fails in the state it is taken in; while no mutex is given up the inequalities stay and only the assertion of a lock can fail, and none does if free mutexes have the worst priority |
| `Sched.RunFromStart` | kernel/core/sched.c:46-339 | from an empty system every run in which no mutex is given up completes |
| `SchedLaws.DoesOrder` | kernel/core/sched.c:46-339 | in no step does a thread overtake another in a run queue |
| `SchedLaws.NoOvertaking` | kernel/core/sched.c:46-339 | nor in any run while it stays ready |
| `SchedLaws.OldestRuns` | kernel/core/sched.c:58-77 | whoever gets a processor has the best priority and has been ready longest of its equals, in every run |
| `SchedLaws.SliceOver` | kernel/core/irq.c:57-83 | a thread whose slice is over stands behind all its equals |
| `SchedLaws.WokeAllReady` | kernel/core/sched.c:303-317 | a wakeup of all leaves each thread ready or still waiting |
| `SchedState.RequeuedOrder` | kernel/core/sched.c:247-273 | a change of priority moves the one thread and keeps the order of all others |
| `Inheritance.ChainBounded` | kernel/core/mutex.c:102-116 | if the inequalities hold, a boosted mutex has boosted all it waits for, cycles included |
| `Inheritance.BoostExact` | kernel/core/mutex.c:102-116 | boosting gives exactly the chain the better priority and changes nothing else |
| `Inheritance.WorseShrinks` | kernel/core/mutex.c:106-108 | each boost leaves fewer mutexes to boost |
| `Inheritance.HitsStep` | kernel/core/mutex.c:102-116 | boosting one link does not change whether the rest of the chain leads to a mutex without an owner |
| `Inheritance.HitsOnChain` | kernel/core/mutex.c:102-116 | the mutex that is met lies on the chain |
| `Inheritance.CalmInherited` | kernel/core/sched.c:46-339 | a step in which no thread starts to wait for a mutex and no priority changes keeps the inequalities |
| `Sched.ReleaseInherited` | kernel/core/mutex.c:226-237 | giving up a mutex keeps the inequalities if and only if nobody is left waiting for it |
| `Sched.RecalcInherited` | kernel/core/mutex.c:208-220 | recalculating keeps them |
| `Sched.InheritedSafe` | kernel/core/mutex.c:102-116 | while they hold no boost meets a mutex without an owner |
| `Sched.FreeWorstSafe` | kernel/core/mutex.c:118-135 | while free mutexes have the worst priority no lock fails its assertion |
| `Inheritance.BoostFreeWorst` | kernel/core/mutex.c:102-116 | a boost gives no mutex without an owner another priority while the inequalities hold |
| `SchedRuns.LockAfterUnlock` | kernel/core/mutex.c:118-135 | a run from an empty system in which the priority assertion of a lock fails |
| `SchedRuns.BoostAfterUnlock` | kernel/core/mutex.c:102-116 | a run from an empty system in which a boost meets a mutex without an owner |
| `TimeoutHistory.FiresOnTime` | kernel/core/timeout.c:16-85 | a timeout of delay d fires exactly at the d-th tick after it was queued, or was dequeued before |
| `TimeoutHistory.FiresPeriodically` | kernel/core/timer.c:99-123 | a periodic timer left alone fires at d, d + p, d + 2p, ... |
| `TimeoutHistory.FiresOnlyThen` | kernel/core/timer.c:99-123 | and at no other tick |
| `TimeoutHistory.AppendSound` | kernel/core/timeout.c:57-85 | the events that the queue can produce keep the history exact, causal, in order for ties and periodic, and a timer that its callback queued is dequeued before the callback ends |
| `Timers.InsertOrder` | kernel/core/timeout.c:28-39 | insertion keeps entries in the order of their deadlines, ties in the order they came |
| `Timers.InsertDeltas` | kernel/core/timeout.c:28-39 | inserting keeps every entry the difference of two deadlines |
| `Timers.DeleteDeltas` | kernel/core/timeout.c:42-55 | so does dequeuing |
| `Timers.Ticking` | kernel/core/timeout.c:64-72 | between ticks the first difference is not zero, and counting it down moves the clock on |
| `Timers.TimerQueue.Enqueue` | kernel/core/timeout.c:16-40 | the timeout is due delay ticks from now, everything else as before |
| `Timers.TimerQueue.Dequeue` | kernel/core/timeout.c:42-55 | the timeout is gone and every other deadline is unchanged |
| `Timers.TimerQueue.StopTimer` | kernel/core/timer.c:74-91 | a queued timer is dequeued, a running one is kept from being queued again |
| `Timers.TimerQueue.StartTimer` | kernel/core/timer.c:46-52 | the timer is due after the delay; the assertion or panic is reached exactly if it is queued or the delay is zero |
| `Timers.TimerQueue.Finish` | kernel/core/timer.c:113-122 | a periodic timer is queued again, and the assertion fails exactly if it is queued already |
| `Timers.TimerQueue.ApplyOne` | kernel/core/timer.c:46-91 | one start or stop from a callback has its effect, or stops the kernel exactly for a bad start |
| `Timers.TimerQueue.Apply` | kernel/core/timer.c:46-91 | a callback carries out all its steps in order, up to the first bad start |
| `Timers.StartedFromCallback` | kernel/core/timer.c:99-123 | a run in which a periodic timer started from its own callback is found queued |
| `Timers.TimerQueue.Fire` | kernel/core/timer.c:99-123 | the first due timeout fires, the steps of its callback are carried out, it is queued again if it is periodic and was not stopped, and fewer are due afterwards |
| `Timers.TimerQueue.Process` | kernel/core/timeout.c:57-85 | the clock moves by one and due timers fire one after the other until nothing is left that is due, unless the kernel stops, and then why; it does stop if the first callback only starts its own periodic timer |
| `Timers.TimerQueue.Execute` | kernel/core/timeout.c:16-85 | any interleaving of ticks, starts and stops, also from callbacks, is carried out step by step and leaves an exact history; the kernel stops only for a start of a queued timer or for no delay, or a timer queued at the end of its callback |
| `Timers.TimerQueue.TakeStep` | kernel/core/timeout.c:16-85 | one tick, start or stop has its effect and no other |
| `TimerRuns.ClockCounts` | kernel/core/timeout.c:57-85 | over every run the clock counts the ticks and nothing else |
| `TimerRuns.StoppedStays` | kernel/core/timer.c:74-91 | a timer that was stopped and is not started again does not fire again, whatever else happens |
| `TimerRuns.StoppedFromCallback` | kernel/core/timer.c:113-122 | a periodic timer whose callback stops it is not queued again |
| `Signals.DiscardedGood` | kernel/process/signal.c:119-127 | discarding empties one slot, takes exactly its signal off the queue and keeps slots and queue in agreement |
| `Signals.DiscardedKept` | kernel/process/signal.c:119-127 | the signals that stay keep their order |
| `Signals.AfterKept` | kernel/process/signal.c:341-383 | generating a signal keeps the order of those that stay, and a new one goes last |
| `Signals.AfterMeans` | kernel/process/signal.c:341-383 | which signals are pending and which state holds after a signal was generated |
| `Signals.CaughtGood` | kernel/process/signal.c:521-543 | resetting a one-shot handler leaves no pending signal ignored |
| `Signals.System.GenerateOne` | kernel/process/signal.c:341-383 | the assertion fails exactly for a number outside the table; else the process changes as specified, its queue keeping its order, and of the others only the parent of a continued one, by SIGCHLD |
| `Signals.System.Generate` | kernel/process/signal.c:315-339 | the signal reaches exactly the processes meant, in whatever order they are listed: which signals are then pending for each process, and which stopped ones run; the assertion fails exactly if a process is meant and the number is neither zero nor in the table |
| `Signals.SentStep` | kernel/process/signal.c:323-334 | one more process gets the signal, and its parent may hear of it |
| `Signals.KillOutside` | kernel/syscall.c:1508-1518 | a run in which the first process sends itself a signal: the assertion fails exactly for numbers below 0 or above 32 |
| `Signals.System.SetGroup` | kernel/process/process.c:537-563 | a process moves to a group, unless the group is negative or there is no such process |
| `Signals.System.StateChange` | kernel/process/signal.c:270-291 | the parent is told unless it is absent, the process itself, or does not want to know |
| `Signals.System.Continue` | kernel/process/process.c:575-588 | a stopped process becomes active and its parent is told |
| `Signals.System.StopProcess` | kernel/process/process.c:590-603 | a running process is stopped and its parent is told |
| `Signals.System.Dequeue` | kernel/process/signal.c:434-460 | the first deliverable signal, or none if none is |
| `Signals.System.Act` | kernel/process/signal.c:415-543 | the default action, handler or failure as the disposition says, and exactly the new state of the process; the three panics of this path cannot be reached |
| `Signals.System.Deliver` | kernel/process/signal.c:400-432 | the first deliverable signal of the queue is taken off it and acted on, or there is none; the others stay as they are, in their order |
| `Signals.System.Return` | kernel/process/signal.c:400-432 | a return to user mode delivers one signal and ends the process exactly if its default action says so or its handler could not be set up |
| `Signals.System.ChangeAction` | kernel/process/signal.c:137-176 | when it is refused, and exactly when it would leave the table; the old action is returned; and a signal that becomes ignored is not left pending |
| `Signals.ActionOfZero` | kernel/process/signal.c:137-176 | a run in which the action of a signal is asked for: the access leaves the table exactly for number zero |
| `Signals.System.Fork` | kernel/process/signal.c:70-86 | actions and mask are copied and nothing is pending |
| `Signals.System.Init` | kernel/process/signal.c:53-66 | a first process has default handlers and nothing pending or blocked |
| `Signals.System.Execute` | kernel/process/signal.c:315-543 | every run carries out its steps one by one; slots match the queue, no pending signal is ignored, and SIGCONT is pending neither with a stop signal nor on a stopped process; a run ends early only in a state in which the step leaves the table or its assertion on the number fails |
| `Signals.System.Perform` | kernel/process/signal.c:315-543 | one step has its effect and no other |
| `SignalRuns.SteppedKept` | kernel/process/signal.c:119-543 | no step changes the order of the signals that stay in a queue |
| `SignalRuns.NoOvertaking` | kernel/process/signal.c:341-460 | in every run, what is in front of a pending signal was in front of it all along |
| `SignalRuns.DeliveredInOrder` | kernel/process/signal.c:434-460 | signals that can be delivered are delivered in the order in which they were generated |
| `SignalRuns.KillAlways` | kernel/process/signal.c:434-460 | a pending SIGKILL can be delivered to every process, whatever it blocks and also when stopped, and ends it |
| `SignalRuns.DeliverableMeans` | kernel/process/signal.c:434-460 | what the mask and a stop hold back |
| `SignalRuns.DefaultActions` | kernel/process/signal.c:462-516 | each number has exactly one kind of default action |
| `SignalRuns.MeantMeans` | kernel/process/process.c:378-391 | whom a positive number, zero, minus one and other negative numbers mean |
| `SignalRuns.NewbornMeans` | kernel/process/signal.c:70-86 | a child has its parent's actions, mask and group and nothing pending |
| `SignalRuns.InitialMeans` | kernel/process/signal.c:53-66 | the first process has default handlers and nothing pending or blocked |
| `PathCache.ReleaseCount` | kernel/fs/path.c:122-144 | the count after a put tells whether anything else keeps the node; the bad-state panic cannot be reached |
| `PathCache.FreedAccounted` | kernel/fs/path.c:146-169 | freeing an unused node and passing its claim to the parent keeps the accounting |
| `PathCache.RemovedIff` | kernel/fs/path.c:106-120 | removal keeps the accounting if and only if the node is on its parent's list |
| `PathCache.RemovedTwiceFrees` | kernel/fs/path.c:106-144 | after a second removal the next put frees the node although up to two handles and children are left |
| `PathCache.UnlinkTwice` | kernel/fs/inode.c:612-650 | a run in which two threads remove the same node, and the next put frees it under the other |
| `PathCache.Cache.constructor` | kernel/fs/path.c:413-416 | the root starts with its own and the system's reference |
| `PathCache.Cache.Create` | kernel/fs/path.c:49-79 | the node is linked in front of its siblings and counted on both sides |
| `PathCache.Cache.Duplicate` | kernel/fs/path.c:81-91 | one more handle, counted |
| `PathCache.Cache.LookupCached` | kernel/fs/path.c:235-258 | the first child of the name with one more handle, or none has the name |
| `PathCache.Cache.Detach` | kernel/fs/path.c:106-120 | the node leaves the tree and its count is lowered, the parent's too if it had one; the accounting is kept if and only if the node was on its parent's list |
| `PathCache.Cache.Release` | kernel/fs/path.c:122-173 | one locked section: the node is freed, in constructed state, exactly if only this handle kept it |
| `PathCache.Cache.Put` | kernel/fs/path.c:122-173 | exactly the longest chain of ancestors that becomes unused is freed, never the root, and it ends |
| `PathCache.Cache.Execute` | kernel/fs/path.c:49-173 | in every interleaving each section has its effect and no other, counts equal handles, links and children, and the root stays, up to the first removal of a node that is off its parent's list, which breaks them, or the first mount on a mounted node, which panics |
| `PathCache.Cache.Perform` | kernel/fs/path.c:49-258 | one locked section does exactly what its step is to do; the counts stay right if and only if it is no such removal |
| `PathCache.MakeThenLookup` | kernel/fs/path.c:49-258 | a node that has just been made is found under its name |
| `BufferCache.OneSizeApart` | kernel/fs/buf.c:134-136 | blocks of one size on one device are equal or share no byte |
| `BufferCache.GotSound` | kernel/fs/buf.c:122-186 | there is at most one buffer per block, number and size of the cache bounded |
| `BufferCache.GotCoherent` | kernel/fs/buf.c:122-186 | taking or recycling a buffer loses no change |
| `BufferCache.EnteredCoherent` | kernel/fs/buf.c:196-214 | who gets a buffer sees the latest contents |
| `BufferCache.ModifiedCoherent` | kernel/fs/buf.c:216-231 | changing a held buffer changes this block's contents only |
| `BufferCache.LeftCoherent` | kernel/fs/buf.c:238-252 | unlocking writes changes back, so that buffers nobody holds equal the disk |
| `BufferCache.DroppedCoherent` | kernel/fs/buf.c:254-262 | giving up the reference later, with other clients in between, loses nothing |
| `BufferCache.Recycled` | kernel/fs/buf.c:144-153 | the recycled buffer is the one released longest ago, and there is none only if all are referenced |
| `BufferCache.StepOrder` | kernel/fs/buf.c:254-262 | the list stays in the order of release |
| `BufferCache.RunCoherent` | kernel/fs/buf.c:89-263 | every run over blocks that share no bytes behaves like direct access to the disk |
| `BufferCache.GotCounts` | kernel/fs/buf.c:122-186 | getting a buffer adds one reference to its block and takes none from another; it fails exactly if the block is not cached, the cache is full and all buffers are referenced |
| `BufferCache.StepCounts` | kernel/fs/buf.c:89-263 | what each step does to the references of every block |
| `BufferCache.RunCounts` | kernel/fs/buf.c:89-263 | over every run a block has as many references as were taken and not given up, whether or not its buffer was recycled in between |
| `BufferCache.Stale` | kernel/fs/buf.c:134-136 | any two different blocks that share a byte can be made to disagree |
| `BufferCache.TransparentIff` | kernel/fs/buf.c:89-263 | the cache is invisible if and only if no two blocks asked for share bytes |
| `BufferCache.Buffers.Scan` | kernel/fs/buf.c:131-147 | the loop finds the block, or the last unreferenced buffer |
| `BufferCache.Buffers.GetBuf` | kernel/fs/buf.c:122-186 | the scan takes the step of the specification |
| `BufferCache.Buffers.Read` | kernel/fs/buf.c:196-214 | a buffer is got, locked and filled as specified; exactly if one is cached or can be recycled and no other client holds it |
| `BufferCache.Buffers.WriteBuf` | kernel/fs/buf.c:223-285 | a dirty buffer reaches the disk, and the request panics exactly for a clean one |
| `BufferCache.Buffers.LeaveBuf` | kernel/fs/buf.c:238-252 | a held buffer, and no other, is written back and unlocked |
| `BufferCache.Buffers.DropBuf` | kernel/fs/buf.c:254-262 | the reference is dropped, and the last one moves the buffer to the front |
| `BufferCache.Buffers.ReleaseBuf` | kernel/fs/buf.c:238-263 | a held buffer, and no other, goes through both steps |

## Left out

- Page-table encoding, translation buffers and memory ordering between processors: the page table is a map, and a locked section is atomic.
- The page pool of `Vm` is a set of free pages, with the contract that `PageAlloc.PageAllocator.AllocOne` and `FreeOne` are proved to have; the pages that hold page tables are not taken from it.
- Out-of-memory returns below the page allocator, which panics: the models of its users return a status that stands for it.
- Sharing clones (`share` not zero) and the list of areas of an address space.
- Ext2Inode.Inode.GetBlock: does not model 32-bit wrap-around of the block index arithmetic, which needs block sizes of 8 KiB and more, nor read errors of the block device.
- Ext2Alloc.BlockAllocator.BitmapAlloc: the blocks that hold one group's bitmap are one run of words.
- Inode allocation, directory entries and the rest of ext2.
- Tmalloc.TreeState.NextBin: scans the map of non-empty bins bit by bit, where the source isolates the least bit by arithmetic.
- Tmalloc.TreeState.UnlinkLarge: is told the node whose ring holds the chunk, because rings are sequences and not linked chunks.
- Small bins, the top chunk, mapping of memory and corruption checks of the C library's allocator.
- SlabGeometry.Plan: the source takes the remainder by an alignment of zero before it replaces it by a word; the model lets that test pass.
- Destroying slabs and pools, and the general-purpose allocator on top of pools.
- Ties of `sleep` time-outs to the scheduler: a time-out is a `Resume` at any moment. Freeing of threads to destroy.
- Sched.Scheduler.WakeOne: does not say that the first thread of an ordinary wait queue is the best one, because the kernel does not move sleeping threads when their priority is raised.
- Sched.Scheduler.MayRaise: says nothing about how far the priorities had been changed when the assertion fails.
- Timers.TimerQueue.Execute: a timer that is stopped and initialised again, as `setitimer` does, counts as a new timer with its own period.
- Starting a timer by its own delay (`k_timer_start`): it tests the link of the next entry, so it refuses queued timers and dereferences a null pointer for all others.
- Children that pass to the first process when their parent ends, and the removal of processes that have been waited for.
- Signal permissions, running out of memory for a signal, the layout of the user stack frame, freeing of discarded signals, and delivery beyond one signal per return to user mode.
- Signals.System.ChangeAction: an access outside the table is a result; what it reads or overwrites is not modelled.
- Signal numbers follow the C library's header, which is not part of this model; only that they differ matters.
- Path lookup across mounts and the inode cache.
- BufferCache.Buffers.GetBuf: memory for a buffer is always found; where the source finds none for a recycled buffer it drops the buffer from the list and does not lower the count that bounds the cache.
- The device driver behind the buffer cache: a request reads or writes the block at once.
- Drivers, networking, system-call plumbing, pipes, terminals, user programs: thin, or easy beside the rest.
