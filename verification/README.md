# A verified model of the OS-23Fall-FDU kernel

This project models the parts of the teaching kernel whose correctness is hardest to see, and
proves what they promise:

- the write-ahead log and the block cache (`fs/cache.c`), down to single device writes, with
  crashes between any two of them and inside recovery; the bitmap allocator on top;
- inodes, files and directories (`fs/inode.c`);
- the red-black tree with parent pointers (`common/rbtree.c`), on the heap, with both fix-ups;
- semaphores and the scheduler (`common/sem.c`, `kernel/sched.c`) on any number of CPUs;
- page tables, page counts, lazy allocation, copy on write and teardown (`kernel/pt.c`,
  `kernel/paging.c`, `kernel/mem.c`), and the size-class allocator (`kernel/mem.c`);
- the shell's parser (`user/sh/main.c`).

## How it is built

| files | what they hold |
|---|---|
| `FsLayout`, `Journal`, `LogProtocol` | sectors and words; the log on values: commit, crash, recovery; operations and crashes interleaved |
| `CacheSpec`, `BlockCache`, `LruOrder` | the cache invariant on values; the cache as a class, each method a step of the protocol; which block is recycled |
| `Bitmap`, `BlockAllocator`, `AllocatorLink` | the bitmap; alloc and free over the cache; that this is the allocator inodes use |
| `InodeFormat`, `FileSpec`, `Inodes`, `InodeTable`, `Directory`, `FreshDisk`, `DiskLayout` | entry codec; what inodes mean; the inode layer; references; directories as maps; an empty file system; every field's place on the disk |
| `RedBlackShape`, `RedBlackTree`, `RedBlackErase`, `RedBlackDetach`, `RedBlackSearch` | trees and paths; insertion; the erase fix-up; unlinking; searching and height |
| `SleepWake`, `SemCounts`, `WakeOrder` | processes, semaphores and the scheduler as a step system; the accounts of semaphores; who is woken, who runs next, progress |
| `PageMap`, `Paging`, `Teardown` | tables refine a flat map; the operations; free_pgdir and whole runs |
| `KernelHeap` | kalloc and kfree |
| `ShellGrammar`, `Shell` | the grammar, and the parser as a function that is sound and complete for it; lexer, parser and NULs on the buffer |

Where the source updates things in place the model is a class or works on an array, and each
method is proved against a specification on values; processes that interleave are a step
system whose runs are quantified over. Bytes are numbers below 256, and 16, 32 and 64-bit
arithmetic is written out where it can wrap. ASSERT and PANIC are results.

## What the proofs show about the code

Each of these has its exact condition among the members below.

- `cache_sync` stores the block number before it compares the budget, so the 64th distinct
  block of a full group is written one entry behind the header's array. An operation within
  its budget never gets there.
- `commit` compares with LOG_MAX_SIZE, never with the size of the logging area. The layout of
  mkfs is one block short: the commit of a full group overwrites the first inode block.
- `cache_sync` without a context writes around the log, and `inode_map` does so with the
  indirect block on every read behind the direct blocks. If that block has changed in the
  group in the making, a crash finds what was never committed.
- `inode_insert` returns a byte offset where its documentation promises an index, cuts the
  number to 16 bits, and always appends; `inode_remove` at the end of a directory grows it by
  a blank entry, does not check that it is a directory, and takes an index modulo 2^60.
- `inode_read` with an offset and a count that overflow 64 bits stops at an ASSERT.
- `vmmap` over a mapping, and a fault on a page that is mapped and needs no copy, never give
  the old page back. `sbrk` by more than the heap wraps the end around and frees nothing.
- `kalloc` above 2048 bytes takes a page, finds no room for a block and follows NULL.

## Model

| member | source | states |
|---|---|---|
| Journal.HeaderRoundTrip | OS-23Fall-FDU-lab-finished/src/fs/defines.h:72-75 | The log header that is read back from its sector is the one that was written, all 63 entries and the count. |
| Journal.CrashAtomicity | OS-23Fall-FDU-lab-finished/src/fs/cache.c:290-317 | Cut a commit after any number of its device writes, then boot with any number of recoveries that are themselves cut: every home block is old if the header had not been written, every home block is new if it had, and the on-disk count is 0. |
| Journal.RebootReplays | OS-23Fall-FDU-lab-finished/src/fs/cache.c:193-208 | A disk with a complete log replays to the new contents through any sequence of interrupted recoveries. |
| Journal.AtomicIffLogFits | OS-23Fall-FDU-lab-finished/src/fs/cache.c:290-317 | A group of distinct home blocks commits atomically on every disk and for every contents if and only if its copies and the header fit in the logging area. |
| LogProtocol.StepKeeps | OS-23Fall-FDU-lab-finished/src/fs/cache.c:235-350 | Every step (begin, sync, end, one device write, finish, crash and reboot) keeps the protocol invariant. |
| LogProtocol.ReservationHolds | OS-23Fall-FDU-lab-finished/src/fs/cache.c:235-288 | Over every interleaving with crashes: logged blocks plus remaining budgets never exceed LOG_MAX_SIZE, logged numbers are distinct, no operation runs during a commit, outstanding counts the running operations, and the PANIC of end_op is unreachable. |
| LogProtocol.CrashAfterAnyRun | OS-23Fall-FDU-lab-finished/src/fs/cache.c:193-350 | After any run, a crash and any number of cut recoveries bring back the contents of a moment at which no operation was running: the last one, or the one before if the header of the group had not reached the disk. |
| LogProtocol.QuietStateIsDurable | OS-23Fall-FDU-lab-finished/src/fs/cache.c:320-350 | When a commit is over and nothing was synced since, a crash loses nothing that was ever synced. |
| LogProtocol.CommittedStays | OS-23Fall-FDU-lab-finished/src/fs/cache.c:290-317 | A whole commit is a run of single device writes of the protocol: every set of states that steps do not leave contains, with a state at the start of a commit, the state after all its writes in order. |
| LogProtocol.HeaderFillsUp | OS-23Fall-FDU-lab-finished/src/fs/cache.c:264-288 | A state with all 63 header entries in use is reachable, and the next sync of a new block writes the entry behind the array before its ASSERT stops it. |
| LogProtocol.WritesPastHeaderIff | OS-23Fall-FDU-lab-finished/src/fs/cache.c:264-288 | Sync writes behind the header array exactly when the block is new and all entries are in use, which leaves only an operation without budget. |
| LogProtocol.MkfsLogTooSmall | OS-23Fall-FDU-lab-finished/src/user/mkfs/main.c:44 | With the layout that mkfs writes, from every clean disk a run leads into a commit of 63 blocks that has made its log copies, the last one over the first inode block, which was never synced; every reboot from there finds neither the contents before the group nor those after it. |
| LogProtocol.UnloggedSafeIff | OS-23Fall-FDU-lab-finished/src/fs/cache.c:264-270 | A sync without a context between commits keeps crash atomicity, and the protocol invariant, if and only if it writes what the device has already; reading back a block of no group does. |
| LogProtocol.UnloggedBreaks | OS-23Fall-FDU-lab-finished/src/fs/cache.c:264-270 | From every clean disk and for every new value of a home block: after begin and sync of that value, a sync of the block without a context and a crash, every reboot differs from the only boundary there was. |
| BlockCaches.BlockCache.Acquire | OS-23Fall-FDU-lab-finished/src/fs/cache.c:113-172 | The block held afterwards has the wanted number and the last synced contents of that number; it is the one that had the number, or else the idle unpinned one nearest to the tail, or else, only if there is none, a new one at the tail; the cache invariant (valid numbers unique, pinned exactly when logged, size bound) is kept. |
| BlockCaches.BlockCache.Release | OS-23Fall-FDU-lab-finished/src/fs/cache.c:174-191 | The block is given up and moves to the head, or is dropped if it is not pinned and the list is longer than the threshold; the others keep their order, the invariant is kept and nothing else is released. |
| LruOrder.AlwaysByAge | OS-23Fall-FDU-lab-finished/src/fs/cache.c:113-191 | After any run of releases and additions, of two blocks in the list the one nearer to the head was released later, or both never. |
| LruOrder.ReleaseIsUse | OS-23Fall-FDU-lab-finished/src/fs/cache.c:174-191 | What release does to the list is such a step. |
| LruOrder.TakesLeastRecentlyUsed | OS-23Fall-FDU-lab-finished/src/fs/cache.c:134-152 | Least recently used: the idle block that acquire takes for an absent number was released before every other idle block, or never. |
| BlockCaches.BlockCache.TryBeginOp | OS-23Fall-FDU-lab-finished/src/fs/cache.c:235-261 | Succeeds exactly if another budget fits, and is the begin step of the protocol. |
| BlockCaches.BlockCache.Sync | OS-23Fall-FDU-lab-finished/src/fs/cache.c:264-288 | The sync step of the protocol: the block is recorded once, pinned, and becomes the last synced contents; fails exactly without budget. |
| BlockCaches.BlockCache.SyncUnlogged | OS-23Fall-FDU-lab-finished/src/fs/cache.c:264-270 | Without a context: one device write of the held block, after which the cache agrees with the device; the cache invariant holds afterwards if and only if the device had that block already. |
| BlockCaches.BlockCache.Commit | OS-23Fall-FDU-lab-finished/src/fs/cache.c:290-317 | The device receives exactly the writes of the abstract commit, in order, and the header is empty afterwards. |
| BlockCaches.BlockCache.EndOp | OS-23Fall-FDU-lab-finished/src/fs/cache.c:320-350 | The end step of the protocol; the last operation to end commits the group, others write nothing. |
| BlockCaches.BlockCache.Recover | OS-23Fall-FDU-lab-finished/src/fs/cache.c:193-208 | Boot-time recovery writes every logged slot home, in order, then clears the header. |
| BlockCaches.BlockCache.Init | OS-23Fall-FDU-lab-finished/src/fs/cache.c:210-231 | After boot the cache is valid over the recovered disk. |
| CacheSpec.ReuseKeeps | OS-23Fall-FDU-lab-finished/src/fs/cache.c:136-152 | Reusing the buffer of an unpinned, unheld block loses no synced data. |
| CacheSpec.ReleaseKeeps | OS-23Fall-FDU-lab-finished/src/fs/cache.c:174-191 | Moving a released block to the front, or dropping it from a long list, keeps the cache invariant and releases that number only. |
| CacheSpec.SyncKeeps | OS-23Fall-FDU-lab-finished/src/fs/cache.c:264-288 | Pinning and recording a block keeps the cache invariant, for a new block and for an absorbed one. |
| CacheSpec.HomeWriteKeeps | OS-23Fall-FDU-lab-finished/src/fs/cache.c:305-314 | Copying one logged block home and unpinning it keeps the cache invariant with one pending block fewer. |
| Bitmaps.MarkedOnly | OS-23Fall-FDU-lab-finished/src/fs/cache.c:361-364 | Marking a block sets its bit and no other. |
| Bitmaps.UnmarkedOnly | OS-23Fall-FDU-lab-finished/src/fs/cache.c:380-388 | Clearing a mark clears that bit and no other. |
| Bitmaps.FreeUndoesAlloc | OS-23Fall-FDU-lab-finished/src/fs/cache.c:353-388 | Freeing a block that was just allocated restores the whole bitmap. |
| BlockAllocator.FindFree | OS-23Fall-FDU-lab-finished/src/fs/cache.c:360-362 | The scan of one bitmap block finds the first clear bit below the number of blocks, or there is none. |
| BlockAllocator.Alloc | OS-23Fall-FDU-lab-finished/src/fs/cache.c:353-378 | Over the real cache: the least unmarked block is marked and zeroed and nothing else changes; no space exactly when every block is marked. |
| BlockAllocator.Free | OS-23Fall-FDU-lab-finished/src/fs/cache.c:380-388 | Over the real cache: the mark of the block is cleared and nothing else changes. |
| AllocatorLink.OutcomeIsPromise | OS-23Fall-FDU-lab-finished/src/fs/cache.c:353-378 | What the allocator does over the real cache, unless the operation has no budget left, is what the inode layer counts on. |
| AllocatorLink.OkIsSensible | OS-23Fall-FDU-lab-finished/src/fs/cache.c:353-378 | In a consistent file system the allocator can be called whatever blocks the inode layer holds: every one of them is marked, and so are all metadata blocks. |
| InodeFormat.EntryRoundTrip | OS-23Fall-FDU-lab-finished/src/fs/defines.h:51-59 | An inode entry that is decoded from its 64 bytes is the one that was encoded. |
| InodeFormat.GetPutEntry | OS-23Fall-FDU-lab-finished/src/fs/inode.c:44-53 | Writing one entry of an inode block changes that entry and no other. |
| InodeFormat.GetPutInvalid | OS-23Fall-FDU-lab-finished/src/fs/inode.c:230-234 | Writing the type INVALID changes only the type of that entry. |
| InodeFormat.GetPutAddr | OS-23Fall-FDU-lab-finished/src/fs/inode.c:55-57 | Writing one address of an indirect block changes that address and no other. |
| DiskLayout.HeaderBytes | OS-23Fall-FDU-lab-finished/src/fs/defines.h:72-75 | The log header is eight little-endian bytes of count, then eight for every block number. |
| DiskLayout.EntryBytes | OS-23Fall-FDU-lab-finished/src/fs/defines.h:51-59 | Byte by byte: type, major, minor and links in two bytes each, the size from byte 8, twelve addresses from byte 12, the indirect block from byte 60, all little-endian. |
| DiskLayout.InodePlace | OS-23Fall-FDU-lab-finished/src/fs/inode.c:44-53 | Inode i is in block i / 8 of the inode area, 64 bytes from byte 64 * (i % 8) on. |
| DiskLayout.AddrBytes | OS-23Fall-FDU-lab-finished/src/fs/defines.h:61-64 | Address i of an indirect block is in four little-endian bytes from byte 4 * i on. |
| DiskLayout.DirBytes | OS-23Fall-FDU-lab-finished/src/fs/defines.h:66-70 | A directory entry is two bytes of inode number and fourteen characters. |
| DiskLayout.BitmapPlace | OS-23Fall-FDU-lab-finished/src/fs/cache.c:355-363 | Block j is marked by the bit of value 2 to the j % 8 in byte j / 8 of the bitmap. |
| FileSpec.AllocGive | OS-23Fall-FDU-lab-finished/src/fs/inode.c:280-326 | Allocating a block and storing it in an empty slot: every other slot, entry, data block and mark is as before, slots stay distinct and the marked unowned blocks are the same. |
| FileSpec.FreeClear | OS-23Fall-FDU-lab-finished/src/fs/inode.c:186-204 | Freeing the block of a slot and clearing the slot: that block and no other is unmarked, everything else is as before. |
| Inodes.InodeLayer.AllocBlock | OS-23Fall-FDU-lab-finished/src/fs/cache.c:353-378 | The block allocator as inodes see it: the least unmarked block, or every block is marked. |
| Inodes.InodeLayer.Map | OS-23Fall-FDU-lab-finished/src/fs/inode.c:269-326 | With a context, for every offset: the block of the offset exists afterwards, across the direct and indirect boundary; it was allocated exactly if it was missing; no other file, entry or data block changes; an offset whose block number in 32 bits is behind the largest file gets 0 and changes nothing. A file stays gapless for offsets up to its end. |
| Inodes.InodeLayer.Peek | OS-23Fall-FDU-lab-finished/src/fs/inode.c:269-326 | Without a context: the block of the offset, whose number is cut to 32 bits, or 0. |
| Inodes.InodeLayer.Read | OS-23Fall-FDU-lab-finished/src/fs/inode.c:329-350 | Returns exactly the bytes of the file from the offset on, at most count of them; asserts exactly if the offset is behind the end or offset plus count overflows 64 bits. |
| Inodes.InodeLayer.Write | OS-23Fall-FDU-lab-finished/src/fs/inode.c:353-380 | The file is the old one with the source written at the offset, longer if need be; every other entry and file is as before; no block is lost; the stored entry equals the one in memory; asserts, with nothing changed, exactly if the offset is behind the end or the end behind the largest file; fails for space only when every block is marked. |
| Inodes.InodeLayer.Clear | OS-23Fall-FDU-lab-finished/src/fs/inode.c:182-209 | The file is empty, exactly its data and indirect blocks are free again, every other entry and file is as before, no block is lost. |
| FreshDisks.FreshIsOk | OS-23Fall-FDU-lab-finished/src/user/mkfs/main.c:105-134 | On every layout: the disk whose bitmap marks exactly the metadata blocks and that is zero elsewhere is a consistent file system, with no block owned. |
| FreshDisks.Format | OS-23Fall-FDU-lab-finished/src/fs/inode.c:60-70 | The inode layer starts out valid on such a disk, so its invariant can be met. |
| InodeTable.Alloc | OS-23Fall-FDU-lab-finished/src/fs/inode.c:82-105 | The least free inode from 1 on becomes an empty one of the type; fails exactly for type INVALID or when none is free; no block changes hands. |
| InodeTable.Get | OS-23Fall-FDU-lab-finished/src/fs/inode.c:158-180 | The one inode in memory with that number gets one more reference, or a new one is listed; numbers in memory stay distinct. |
| InodeTable.Lock | OS-23Fall-FDU-lab-finished/src/fs/inode.c:108-126 | Afterwards the inode is loaded and equals the entry on the disk, or keeps what it had loaded. |
| InodeTable.Put | OS-23Fall-FDU-lab-finished/src/fs/inode.c:221-245 | The last reference to an inode without links frees its entry and exactly its blocks and unlists it; any other put only counts down. |
| InodeTable.Run | OS-23Fall-FDU-lab-finished/src/fs/inode.c:82-245 | Over any run of alloc, get, lock, write, clear and put: no two slots hold the same block, every block in a slot is a marked data block, and free plus owned blocks are constant. A run ends early only where the kernel stops: a type INVALID or no free inode, a number out of range, a write past its bounds, each leaving all of that in place, or a write that found every block marked. |
| Directories.MatchIsEquality | OS-23Fall-FDU-lab-finished/src/common/string.c:48-77 | On padded names, strncmp over 14 characters is equality with the strncpy of the string. |
| Directories.LookupAgrees | OS-23Fall-FDU-lab-finished/src/fs/inode.c:383-399 | Lookup of a non-empty name returns what the map holds for its first 14 bytes, 0 if nothing. |
| Directories.InsertKeepsOrderIff | OS-23Fall-FDU-lab-finished/src/fs/inode.c:402-420 | An insertion that found no such name keeps the directory in order if and only if the name is not empty exactly when the number is not 0 in 16 bits. |
| Directories.RemoveAgrees | OS-23Fall-FDU-lab-finished/src/fs/inode.c:423-431 | Blanking an entry removes its name from the map and nothing else. |
| Directories.RunAgrees | OS-23Fall-FDU-lab-finished/src/fs/inode.c:383-431 | Over any run of insertions and removals no name has two live entries, lookup of every name agrees with the map, and each operation means its map operation. |
| Directories.Lookup | OS-23Fall-FDU-lab-finished/src/fs/inode.c:383-399 | Returns number and index of the first entry that strncmp matches; asserts exactly on a non-directory. |
| Directories.InsertName | OS-23Fall-FDU-lab-finished/src/fs/inode.c:402-420 | Returns -1 exactly if the name is found, else the byte offset at the end of the file, where the entry is written and nothing else. |
| Directories.RemoveEntry | OS-23Fall-FDU-lab-finished/src/fs/inode.c:423-431 | Writes a blank entry at 16 times the index, in 64-bit arithmetic; asserts exactly behind the end or past the largest file; in whole entries it removes the one that the lower 60 bits of the index name, appending a blank one at the end; that is what was asked if and only if there is such an entry, or the one named is blank. |
| Directories.RemovesIff | OS-23Fall-FDU-lab-finished/src/fs/inode.c:423-431 | Removing by the lower 60 bits of an index leaves what removing that entry should if and only if the index is inside the directory, or those bits name a blank entry. |
| Directories.RemovesOther | OS-23Fall-FDU-lab-finished/src/fs/inode.c:423-431 | A directory of one live entry: removing at its end adds a blank entry, and removing entry 2 to the 60 blanks entry 0. |
| RedBlackTrees.RBTree.Insert | OS-23Fall-FDU-lab-finished/src/common/rbtree.c:247-270 | Adds exactly the node, or returns -1 and leaves the tree unchanged exactly if an equal key is in it; search order, colours, black heights, black root and parent links are kept. |
| RedBlackTrees.RBTree.InsertFix | OS-23Fall-FDU-lab-finished/src/common/rbtree.c:40-109 | Restores the colour rules after a red node was linked, keeping the in-order sequence; it ends because it climbs. |
| RedBlackErasing.EraseFix | OS-23Fall-FDU-lab-finished/src/common/rbtree.c:161-246 | Repairs a subtree that is one black short, keeping the in-order sequence; it ends because it climbs. |
| RedBlackDetaching.Detach | OS-23Fall-FDU-lab-finished/src/common/rbtree.c:110-160 | Unlinks the node, by its successor if it has two children, leaving at most one position one black short. |
| RedBlackDetaching.Erase | OS-23Fall-FDU-lab-finished/src/common/rbtree.c:271-276 | Removes exactly the given node and keeps every invariant. |
| RedBlackSearching.Lookup | OS-23Fall-FDU-lab-finished/src/common/rbtree.c:277-288 | Finds the node with the key, or there is none. |
| RedBlackSearching.First | OS-23Fall-FDU-lab-finished/src/common/rbtree.c:289-297 | The node with the least key, null exactly for the empty tree. |
| RedBlackSearching.HeightBound | OS-23Fall-FDU-lab-finished/src/common/rbtree.c:40-109 | 2 to the height is at most the square of the number of nodes plus one. |
| SleepWake.StepKeeps | OS-23Fall-FDU-lab-finished/src/common/sem.c:29-101 | Every step of every process on every CPU keeps the invariant of scheduler and semaphores. |
| SleepWake.SchedulerSafety | OS-23Fall-FDU-lab-finished/src/kernel/sched.c:96-199 | Over every run on any number of CPUs: running is being the current process of exactly one CPU, the queue holds the ready non-idle processes once each, idle is never queued, no ASSERT of scheduler or semaphores fails. |
| SleepWake.SleepersMatchValue | OS-23Fall-FDU-lab-finished/src/common/sem.c:63-101 | The sleep list holds exactly the waiters that were not posted, max(0, -val) of them, once each. |
| SleepWake.NoLostWakeUp | OS-23Fall-FDU-lab-finished/src/common/sem.c:63-101 | A sleeping process is still listed, or a running process that holds the lock of the semaphore is about to activate it and makes it runnable once the run lock is free. |
| SleepWake.DeepWaitReturnsTrue | OS-23Fall-FDU-lab-finished/src/common/sem.c:63-89 | An unalertable wait never returns false. |
| SleepWake.OldestFirst | OS-23Fall-FDU-lab-finished/src/common/sem.c:91-101 | A post takes the waiter that was listed first, and only that one, off the list. |
| SleepWake.PostAllWakesAll | OS-23Fall-FDU-lab-finished/src/common/sem.c:42-51 | When post_all_sem returns, every process that waited when it took the lock was posted and is awake, none is listed, the result is their number, and a positive value is as before. |
| SleepWake.RunLockReleases | OS-23Fall-FDU-lab-finished/src/kernel/sched.c:180-199 | The holder of the run lock lets it go by its own steps, waiting for nothing. |
| SemCounts.StepBalances | OS-23Fall-FDU-lab-finished/src/common/sem.c:12-101 | Every step of every process balances the accounts of every semaphore: value plus listed waiters, posted waiters on their way back, waits that returned true, units that gets returned, and the unit post_all_sem takes back, against what was posted. |
| SemCounts.UnitsConserved | OS-23Fall-FDU-lab-finished/src/common/sem.c:12-101 | Conservation over every interleaving: value plus listed waiters, plus waits granted or on their way back, plus units taken, equal the initial value plus the posts. |
| SemCounts.GrantedIffLeft | OS-23Fall-FDU-lab-finished/src/common/sem.c:63-89 | In every reachable state a wait is granted at once if and only if a unit is left, that is posted or there from the beginning and neither granted nor taken; otherwise it is listed. |
| SemCounts.PostLeavesUnit | OS-23Fall-FDU-lab-finished/src/common/sem.c:91-101 | A post that finds no waiter leaves one unit more, so that the next wait does not sleep. |
| SemCounts.LockExcludes | OS-23Fall-FDU-lab-finished/src/common/sem.c:63-101 | A semaphore that starts at 1 and is posted by its holders only has, over every interleaving, at most one holder or process on its way to be one, and nobody is granted it meanwhile. |
| SemCounts.LockIsFree | OS-23Fall-FDU-lab-finished/src/common/sem.c:63-101 | When nobody has such a lock, its unit is there to be had, and only then. |
| WakeOrder.TrueIffPosted | OS-23Fall-FDU-lab-finished/src/common/sem.c:76-88 | A wait that slept, alertable or not, returns true if and only if the process was posted in it; otherwise it leaves the list and gives its count back. |
| WakeOrder.StepTakesFirst | OS-23Fall-FDU-lab-finished/src/kernel/sched.c:138-193 | A switch goes to the first process of the run queue that can run, and to idle exactly if there is none; no other CPU changes its process. |
| WakeOrder.AlertWakesIff | OS-23Fall-FDU-lab-finished/src/kernel/sched.c:96-125 | An alert wakes a process if and only if it sleeps alertably; it is first in the queue then, and nobody else changes state. |
| WakeOrder.StartsFirst | OS-23Fall-FDU-lab-finished/src/kernel/sched.c:96-125 | A started process becomes runnable and is first in the queue. |
| WakeOrder.Progress | OS-23Fall-FDU-lab-finished/src/common/sem.c:63-101 | In every reachable state a process that is in a call takes the next step of that call, unless it waits for a lock that another one holds. |
| PageMap.Descriptor | OS-23Fall-FDU-lab-finished/src/aarch64/mmu.h:61-63 | Address and flags of a descriptor read back as the page and the flags it was made of. |
| PageMap.PathStep | OS-23Fall-FDU-lab-finished/src/kernel/pt.c:14-17 | The four indices of the walk are the parts of the page number. |
| PageMap.WalkIsFlatMap | OS-23Fall-FDU-lab-finished/src/kernel/pt.c:9-80 | The four-level walk of the hardware agrees with the flat map for every address, 0 where nothing is mapped. |
| PageMap.AccessIsFlatMap | OS-23Fall-FDU-lab-finished/src/aarch64/mmu.h:27-35 | An access by user code, checked bit by bit at all four levels, reaches the physical address that the flat map gives, or faults, for every address, read and write. |
| PageMap.SameDescriptorIff | OS-23Fall-FDU-lab-finished/src/kernel/pt.c:9-80 | Two addresses have the same descriptor exactly when they lie in the same page of the same address space. |
| Paging.Machine.KallocPage | OS-23Fall-FDU-lab-finished/src/kernel/mem.c:62-70 | The head of the queue, zeroed, with one reference; fails exactly on an empty queue. |
| Paging.Machine.KfreePage | OS-23Fall-FDU-lab-finished/src/kernel/mem.c:90-99 | One reference less; at none the page goes back to the queue, never the zero page. |
| Paging.Machine.GetPte | OS-23Fall-FDU-lab-finished/src/kernel/pt.c:9-80 | Page and index of the descriptor; missing tables are made if asked for, each with its own page; no mapping and no data page changes. It fails exactly if fewer pages are free than tables are missing on the way. |
| Paging.Machine.Vmmap | OS-23Fall-FDU-lab-finished/src/kernel/pt.c:126-136 | Afterwards the page translates to the given page and flags and every other page of every address space as before; one reference more; counts that were exact stay so if and only if the page was not mapped. It fails exactly if fewer pages are free than tables are missing. |
| PageMap.OverwriteLeaks | OS-23Fall-FDU-lab-finished/src/kernel/pt.c:126-136 | Mapping over a mapping loses a reference for good: exact counts stay exact if and only if the page was not mapped. |
| Paging.Machine.Sbrk | OS-23Fall-FDU-lab-finished/src/kernel/paging.c:64-97 | The end of the heap moves by size in 64-bit arithmetic, and is where it should be if and only if that is a 64-bit address; a smaller heap gives back exactly the pages behind the end asked for if and only if it shrinks by no more than its size, or has no page; a size that is not whole pages is refused. |
| Paging.ShrunkIff | OS-23Fall-FDU-lab-finished/src/kernel/paging.c:64-97 | The exact condition on the mappings: shrinking by more than the heap gives back nothing, which is right only for a heap without pages. |
| Paging.ShrunkTooFar | OS-23Fall-FDU-lab-finished/src/kernel/paging.c:64-97 | A heap of one mapped page that shrinks by two: its end becomes the last page below 2 to the 64, and the page stays mapped. |
| PageMap.CutIsWithout | OS-23Fall-FDU-lab-finished/src/kernel/paging.c:64-97 | The loop over a range of addresses gives back exactly the pages of those addresses, whose bits from 48 on the walk does not see. |
| Paging.Machine.PageFault | OS-23Fall-FDU-lab-finished/src/kernel/paging.c:99-166 | A heap page gets a page of its own with zeros, or the contents of the shared one on a write to a read-only page; afterwards user code reaches that page at the address by reading and by writing, so the fault does not recur; exact counts stay exact if and only if no mapping was overwritten without giving its page back. It runs out of pages exactly if fewer are free than the page and the missing tables need. |
| Paging.CopiesWriteProtected | OS-23Fall-FDU-lab-finished/src/kernel/paging.c:140-147 | The faults that copy a page are exactly the writes by user code to a page that it may read and not write. |
| Paging.Machine.FreeSections | OS-23Fall-FDU-lab-finished/src/kernel/paging.c:37-62 | Every page of the heap gives up its mapping, nothing else does. |
| Teardown.FreeBelow | OS-23Fall-FDU-lab-finished/src/kernel/pt.c:95-113 | The pages of a table and of all tables below it are freed, each once. |
| Teardown.ReadEntry | OS-23Fall-FDU-lab-finished/src/kernel/pt.c:95-113 | When an entry of a table is read during teardown, the page of that table has not been freed yet; the entry is 0 or leads to the child. |
| Teardown.FreePgdir | OS-23Fall-FDU-lab-finished/src/kernel/pt.c:91-116 | Every mapping and every table page of the directory is given back; other address spaces are untouched. |
| Teardown.Run | OS-23Fall-FDU-lab-finished/src/kernel/paging.c:37-166 | Over any run of page directories, heaps, faults, shared mappings and teardown: the count of every data page is the number of its mappings, plus one for the zero page, which is never freed and holds zeros; allocated plus free pages are all pages. A run ends early only at an operation that stops the kernel: fewer free pages than it needs, none being left then, or a fault outside the heap. |
| Teardown.Step | OS-23Fall-FDU-lab-finished/src/kernel/paging.c:37-166 | One operation succeeds exactly if enough pages are free for it and a fault is inside the heap; it keeps the invariant of runs and does what it means: a new directory has a root and an empty heap, a heap moves, a fault is served, the zero page is mapped, a directory goes with its heap and its tables. |
| Teardown.InitPgdir | OS-23Fall-FDU-lab-finished/src/kernel/pt.c:82-89 | A new page directory has a root table, an empty heap and no mapping; it fails exactly on an empty queue. |
| KernelHeap.Pow | OS-23Fall-FDU-lab-finished/src/kernel/mem.c:101-109 | Fast exponentiation computes the power in 64-bit arithmetic. |
| KernelHeap.GetLowestPow | OS-23Fall-FDU-lab-finished/src/kernel/mem.c:111-119 | The least power of two that fits, for sizes up to a page; 12 above. |
| KernelHeap.Allocator.Kalloc | OS-23Fall-FDU-lab-finished/src/kernel/mem.c:145-162 | A block that was not in use, of the least class that holds the size, the one at the head of the free list if there is one; fails exactly on sizes above 2048, negative ones, and when neither a block of the class nor a page is free. |
| KernelHeap.Allocator.Kfree | OS-23Fall-FDU-lab-finished/src/kernel/mem.c:164-171 | The block goes to the head of the list of the class it came from. |
| KernelHeap.LiveBlockSafe | OS-23Fall-FDU-lab-finished/src/kernel/mem.c:145-171 | Every block in use is 8-aligned, at least as large as asked for, behind the header of one page and inside it, and in no free list. |
| KernelHeap.LiveBlockAlone | OS-23Fall-FDU-lab-finished/src/kernel/mem.c:145-171 | A block in use overlaps no other block, in use or free. |
| KernelHeap.Serve | OS-23Fall-FDU-lab-finished/src/kernel/mem.c:145-171 | Over any run of kalloc and kfree every block in use is safe and overlaps no other, and every block that fits into a page of its class is in use or free; the run ends early only at a size that no class holds, or without pages. |
| Shell.GetToken | OS-23Fall-FDU-lab-finished/src/user/sh/main.c:266-304 | The token behind white space and its place, as the lexer defines them; the cursor moves past it; words are met one by one. |
| ShellGrammar.WordsInOrder | OS-23Fall-FDU-lab-finished/src/user/sh/main.c:266-304 | The words of a line stand in order with something between any two of them. |
| ShellGrammar.ParseIffDerives | OS-23Fall-FDU-lab-finished/src/user/sh/main.c:321-424 | The parser returns a command if and only if the grammar derives it from the whole line and no simple command has ten arguments or more; in the grammar the words and redirections of a simple command are exactly the tokens of its range, in order. |
| ShellGrammar.OneMeaning | OS-23Fall-FDU-lab-finished/src/user/sh/main.c:321-424 | A line has at most one command by the grammar. |
| ShellGrammar.DerivesWords | OS-23Fall-FDU-lab-finished/src/user/sh/main.c:321-424 | What the grammar derives from a range refers to exactly the words of that range, each once, arguments and files of redirections in the order of the line. |
| ShellGrammar.DerivesDirected | OS-23Fall-FDU-lab-finished/src/user/sh/main.c:362-379 | In what the grammar derives, a redirection writes if and only if the last character before its file is the greater sign, and reads if and only if it is the less sign; arguments stand behind neither. |
| ShellGrammar.WordsAreMaximal | OS-23Fall-FDU-lab-finished/src/user/sh/main.c:263-304 | A word is not empty, has none of the white space and symbol characters in it, and is bounded by them or the ends of the line. |
| ShellGrammar.LineSound | OS-23Fall-FDU-lab-finished/src/user/sh/main.c:336-349 | What parseline returns is derived by the grammar from what it consumed. |
| ShellGrammar.LineComplete | OS-23Fall-FDU-lab-finished/src/user/sh/main.c:336-349 | Where the grammar derives a line up to a closing parenthesis or the end, parseline returns that command and stops there. |
| ShellGrammar.PlainParse | OS-23Fall-FDU-lab-finished/src/user/sh/main.c:321-424 | A line without symbols is a simple command of all its words, exactly if they are fewer than ten. |
| Shell.ParseRedirs | OS-23Fall-FDU-lab-finished/src/user/sh/main.c:362-379 | The redirections from the cursor on, each a symbol and a word, are collected in order; it fails exactly where a symbol has no word. |
| Shell.ParseExec | OS-23Fall-FDU-lab-finished/src/user/sh/main.c:395-424 | A block or a simple command, as the specification of the parser has it, for which ShellGrammar.ExecSound and ExecComplete hold. |
| Shell.ParsePipe | OS-23Fall-FDU-lab-finished/src/user/sh/main.c:351-360 | A command or commands joined by a bar, as the specification has it, for which ShellGrammar.PipeSound and PipeComplete hold. |
| Shell.ParseLine | OS-23Fall-FDU-lab-finished/src/user/sh/main.c:336-349 | A line as the specification has it, for which ShellGrammar.LineSound and LineComplete hold. The mutual recursion ends on every line. |
| Shell.NulTerminate | OS-23Fall-FDU-lab-finished/src/user/sh/main.c:427-469 | NULs are written at the ends of exactly the words of the command. |
| Shell.ParseCmd | OS-23Fall-FDU-lab-finished/src/user/sh/main.c:321-334 | It returns a command if and only if the grammar derives it from the whole line with fewer than ten arguments everywhere; every word is referred to exactly once and in order, every redirection goes the way its symbol says, and every word reads back from the buffer after all NULs are written. |

## Left out

- BlockCaches.BlockCache.Acquire: one holder or waiter per block is assumed, because the `acquired` flag is one bit that `cache_release` clears after the sleep lock; a second waiter can lose it.
- BlockCaches.BlockCache.EndOp: requires that no home block of the group is held when the commit runs, because commit would wait for it; sleeping and waking of operations that wait for log space is not modelled, `TryBeginOp` is one turn of the loop.
- BlockCaches.BlockCache.Sync: a sync without a context is `SyncUnlogged`, and not a step of the protocol; the crash theorems cover runs without one that changes the device.
- BlockCaches.BlockCache.Init: a header on the disk with repeated numbers, or with numbers inside the logging area, is excluded; no commit writes one.
- LogProtocol.ReservationHolds: the logging area is assumed to hold the header and 63 blocks; `Journal.AtomicIffLogFits` and `LogProtocol.MkfsLogTooSmall` say what happens otherwise.
- Inodes.InodeLayer.Map: the inode layer works on the contents that the cache keeps (the last synced ones); log budgets of operations are not tracked there.
- Inodes.InodeLayer.Peek: that the indirect block is synced without a context changes no contents and is not modelled there; `LogProtocol.UnloggedSafeIff` says what it does to the log.
- Inodes.InodeLayer.Write: atomicity of a long write under a crash is that of its operation in the log; it is not restated for files.
- InodeTable.Lock: requires an inode that is allocated on the disk, because a free one that is loaded goes stale when it is allocated later.
- InodeTable.Put: requires a loaded inode, because the source reads the link count without checking `valid`.
- Directories.RunAgrees: names are not empty and numbers not 0 in 16 bits; `Directories.InsertKeepsOrderIff` is the exact condition.
- RedBlackTrees.RBTree.Insert: keys are integers compared by less-than where the source takes a comparison function; the packed parent and colour word is two fields. In erase, a store that a rotation overwrites at once is omitted, and two recolourings come a step earlier with the same result.
- SleepWake.SchedulerSafety: processes and locks are values in a step system, so memory order and pointer-level list surgery are not modelled; a step is one critical access; timers, fairness (the source has none), exit, wait and kill beyond becoming a zombie, and the locking of parents are left out. Alerts go to processes that have started.
- Paging.Machine.KallocPage: the lock-free queue is a sequence, because page_lock serialises it; an empty queue is a failure where the source faults on NULL.
- Paging.Machine.Vmmap: flags lie outside the address bits; the page mapped is one from kalloc_page.
- Paging.Machine.PageFault: the only section is the heap that `init_sections` makes; the second walk that vmmap makes ends at the same descriptor and is not repeated; TLB maintenance and the exception itself are left out.
- Teardown.FreePgdir: the directory is that of the current process, as the source takes its descriptors from there, and its mappings lie in the heap; a mapping elsewhere would keep its reference for ever.
- Teardown.FreeBelow: the nested loops of the source, one per level, are one recursion over levels.
- KernelHeap.Allocator.Kalloc: pages come from a sequence of free pages; contents of blocks and the links inside free blocks are not modelled.
- Shell.ParseCmd: the static pool of malloc1 is taken to suffice; running commands is left out.
- Drivers, interrupts, assembly and boot: effects of hardware.
- Message queues: their copying and searching do not meet the obvious specifications.
- Pipes, console, file table and system calls: thin layers, or stubs (namex, fork, execve, mmap).
- String, format, list and PID helpers: easy on their own; strncpy and strncmp appear with directories.
