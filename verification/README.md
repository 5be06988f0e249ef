# A Linux 0.12 kernel, modelled and proved

This project models the parts of a small Linux 0.12 kernel where data structures shared by many processes have to stay
right through every interleaving: memory with copy-on-write and swapping, the buffer cache, zones and directories of the
Minix file system, the process tree, wait queues, the disk elevator, the terminal line discipline, the scheduler, program
arguments and pipes. Each part is a model of what the C code does and theorems over all its inputs, states and runs.

Code that updates things in place is a class whose methods have the source's loops and branches; each method is proved
against a specification on values, and the theorems are about that specification. `dafny verify dfyconfig.toml` covers all.

| modules | part | main results |
|---|---|---|
| `PagingModel` to `PagingSamples`, `AddressSpaces`, `Memory` | mm/memory.c, mm/swap.c | Every run of loads, stores, forks, exits, execs and swaps from boot on looks to the tasks like a machine where nothing is shared or swapped, so a store never shows in another task; pages never touched show the bytes of the task's files. Frame counts are exact, a writable page has one name, every swap slot is named once, no frame leaks. A load, store, fork or exec succeeds if and only if the frames it takes are free; swap_out finds a page if and only if one is in its reach. |
| `BufferModel` to `BufferRequests`, `BufferLinks`, `BufferOrder`, `BufferCache` | fs/buffer.c | Over every interleaving at every sleep and disk interrupt: one buffer per block, one request per buffer in transfer, sound hash chains, a free list in the order of last use, and each block shows exactly the stores made to it. |
| `RequestModel`, `RequestSteps`, `Requests` | kernel/blk_drv | Each queue is its device's pending requests in at most two ascending sweeps. |
| `ZoneModel` to `ZoneLaws`, `MinixZones` | fs/minix/bitmap.c, inode.c, truncate.c | Zones are named once; creating a block touches that block only; truncation returns every zone once, whatever is busy or done to other files meanwhile. |
| `Tasks`, `ProcessModel`, `ProcessSteps`, `ProcessTime`, `ProcessTable` | kernel/fork.c, exit.c | `audit_ptree` never complains in any run; task 1 always has a child to link an orphan beside; time charged is conserved. |
| `WaitModel`, `WaitQueues` | kernel/sched.c | No sleeper is lost: whoever sleeps in `__sleep_on` is on its queue. |
| `LineModel`, `TtyRing`, `TtyRuns`, `Tty` | kernel/chr_drv/tty_io.c | What readers get is a left fold of line editing over what was typed; the line count is right in every run if and only if the settings allow it. |
| `Scheduler` | kernel/sched.c | At most one refill, and exactly when schedule ends; exact shares between any two refills. |
| `DirModel`, `Directories` | fs/minix/namei.c | Directories are finite maps; link counts are exact until a link finds 255. |
| `ExecModel`, `ExecArgs` | fs/exec.c | Arguments and environment reach the new program unchanged if and only if they fit and there are pages. |
| `Pipe`, `Rings`, `Basics` | fs/pipe.c | First in, first out, over every interleaving. |

## What the models take for granted

- Everything between two sleeps of the source is atomic, interrupt handlers included. The places where the source sleeps are
  steps of their own in the buffer cache and the wait queues. `sys_fork`, the tail of `do_exit`, one pass of `sys_waitpid`,
  block creation and one round of truncation are single steps: the source may sleep for memory or for a buffer inside them.
  A pipe's piece is atomic as well; the source moves the pipe's index before it copies, so a page fault during the copy would
  let the other side in.
- Numbers are unbounded, except where their width matters: the byte counts of frames and links, pids, four-byte longs in
  memory, and the signed character in `tty_read`.
- Disk transfers succeed. Program files do not change while they are mapped.
- Paging: a page table is kept with the directory entry that names it, and free_page_tables clears entries before it detaches
  the table (the source the other way round, with the same end). The stray closing brace at mm/memory.c:50 is read as the
  end of the `continue` branch. A fault or a fork that finds no free frame fails, where the source first tries to swap;
  swapping is a step that may come at any point of a run, and `GetFreePage` is the source's loop of both. Running out of
  memory in a fault fails the request, where the source then ends the task. A task that calls exec has a page table,
  since it runs. The parameter `inUse` stands for share_page's test of the inode's use count. Accessed bits, resident set
  sizes, the throttle on repeated faults and the stack limit are not modelled.
- Buffer cache: at least two buffers, and blocks of devices that have a driver. The write-out inside getblk is a write request
  of its own. A process that has locked a buffer tries for a request in a step of its own, and again in any later step while
  the table is full.
- Zones: an index block's buffer is read and written in place; `busy` are the zones whose buffers other processes hold.
- Process tree: task 0 forks only task 1, and tasks 0 and 1 do not exit (`InitMustStay` shows what task 1's exit would do).
- Elevator: all requests are for buffers; a paging request without a buffer is not modelled. `MakeRequest` is called for
  blocks with no request pending, which `NotPending` shows of every call the buffer cache makes.
- Terminal: settings do not change during a run, there is no echo and no flush. Lower-casing leaves bytes from 128 on alone.
- Directories have no holes; `room` says that a block can be had, `ino` is the inode that minix_new_inode hands out, and
  `allowed` is the outcome of the sticky-bit test.
- Exec: the argument pages of the memory model hold any bytes; what the strings in them mean is the separate model of
  `ExecArgs`. There the copy is followed up to the step that would leave the space, not beyond.

## Properties the source does not have

- write_verify marks its private copy clean. A later try_to_swap_out may drop it, and a page written before fork is then lost
  (`WriteVerify` gives the exact condition, `LoseStore` and `StoreThatIsLost` the loss).
- A fork that fails midway does not always restore every count: pages of the parent that were in swap stay in memory
  (`FailedForkRestores` says exactly when, `ForkThatKeepsPage` is a case).
- swap_out may give up although a page could go, because its count of steps also pays for the ends of tables (`SwapOut`,
  `PassedIsMissed`, `SwapOutThatMisses`).
- The test that should refuse arguments which are too long is on an unsigned difference and never holds; longer ones run past
  the start of the argument space (`NeverTooLong`, `CopyStrings`, `Execve`).
- getblk does not take the buffer that has not been used for longest: its scan begins behind the head of the free list, so
  that one comes last (`HeadIsSpared`).
- A link count that passes 255 starts again at 0 (`DoLink`, `Run` and `LinkUnlink` of `Directories`).
- An end-of-file character from 128 on is counted by the editor but never by the reader, unless bytes are stripped to seven
  bits or that character has another meaning first (`DataLaw`, `Miscount`).
- schedule never ends when some task is runnable and all such have counter and priority 0 (`EndsExactly`). nice with an
  increment equal to the priority leads there (`NicedIs`, `NiceStopsAll`).

## Model

| member | source | states |
|---|---|---|
| `Memory.Manager.constructor` | mm/memory.c:431-449 | after mem_init the paging invariant holds and no task has pages |
| `Memory.Manager.FindFree` | mm/swap.c:210-224 | the byte scan of mem_map returns the highest free frame, or 0 exactly when every byte is non-zero |
| `Memory.Manager.TakeFree` | mm/swap.c:207-236 | a frame handed out was free and the highest such, is counted once, and no task's view changes; 0 means that none was free |
| `Memory.Manager.GetFreePage` | mm/swap.c:207-236 | ends (each retry makes one entry fewer present), leaves every task's view alone, and gives up only when no frame is free and nothing is in reach of swap_out from its mark, which is where it was or at the last page that went |
| `Memory.Manager.FreePage` | mm/memory.c:15-27 | takes one off the count of a managed frame in use and does nothing else |
| `Memory.Manager.FreePageTables` | mm/memory.c:29-72 | the task keeps no table; every other task's entries, tables and views stay; the invariant holds |
| `Memory.Manager.FreeTableOf` | mm/memory.c:52-67 | one table's pages, swap slots and frame are given back; other tables stay |
| `Memory.Manager.CopyPageTables` | mm/memory.c:74-146 | succeeds if and only if there is a free frame for each of the parent's tables and each of its pages in swap, and takes exactly as many; then the child sees what the parent sees; else it stops at the first for which there is none, and nobody outside the child sees a change |
| `Memory.Manager.CopyDir` | mm/memory.c:91-143 | one table of the parent is copied into a fresh table of the child, at the cost of one frame and one for each page in swap, or stops where the frames run out |
| `Memory.Manager.CopyTable` | mm/memory.c:109-142 | all entries of a table are shared, or the first 160 for task 0; it stops early only at a page in swap with no frame free |
| `Memory.Manager.CopyEntry` | mm/memory.c:112-141 | one entry: a present page is shared read-only and counted, a swapped one takes a frame for the parent while its slot goes to the child; fails only for a swapped one with no frame free |
| `Memory.Manager.UnWpPage` | mm/memory.c:198-216 | the entry becomes writable with the same view and nobody else's view changes, at the cost of a frame exactly when the page has other users or lies below LOW_MEM; fails, changing nothing, only when that frame cannot be had |
| `Memory.Manager.MakeWritable` | mm/memory.c:218-228 | do_wp_page, for an entry that may already be writable; succeeds if and only if there is the frame it takes |
| `Memory.Manager.TryToShare` | mm/memory.c:259-305 | succeeds exactly when the other task's page is present, clean and in managed memory; nobody sees a difference |
| `Memory.Manager.SharePage` | mm/memory.c:306-327 | succeeds exactly when some other task running the file has such a page, and takes no frame |
| `Memory.Manager.EnsureTable` | mm/memory.c:359-376 | the address gets a table, in a frame taken only if it had none, without any view or entry changing |
| `Memory.Manager.BringIn` | mm/swap.c:87-112 | a page becomes present with the contents the task already saw |
| `Memory.Manager.DoNoPage` | mm/memory.c:329-429 | the missing page becomes present and no view of any task changes; one never touched shows, byte by byte, the executable from its second block on up to end_data, zeros from there, and the library file from its second block on in the library area; succeeds if and only if there are frames for a missing table and for a page nobody lends, and takes exactly those |
| `Memory.Manager.FillMissing` | mm/memory.c:359-429 | the same with the table in place: swap in, empty page, shared page or file page |
| `Memory.Manager.Load` | mm/memory.c:510-519 | a load returns the task's own page, for a page never touched the bytes of its files at that offset, and changes no view; succeeds if and only if the frames its fault takes are free |
| `Memory.Manager.Store` | mm/memory.c:218-228 | a store changes exactly one byte of one page of one task, and no other task's view; succeeds if and only if there are frames for a missing table and for a page the task has not for itself, and takes exactly those |
| `Memory.Manager.GetSwapPage` | mm/swap.c:60-72 | takes the lowest free swap slot; 0, taking none, exactly when none is free |
| `Memory.Manager.SwapFree` | mm/swap.c:74-85 | the slot is free again, other slots as before and slot 0 never; complains exactly for a number out of range or a slot already free |
| `Memory.Manager.TryToSwapOut` | mm/swap.c:115-152 | goes ahead exactly for a managed page that is clean, or dirty with one user while a slot is free; no view changes and one page fewer is present |
| `Memory.Manager.SwapOut` | mm/swap.c:154-205 | a page goes if and only if one that could go lies within the loop's count of steps from the mark, which charges 1025 for a directory entry with a table and 1024 for one without; it is the nearest such page and the mark stands at it; otherwise nothing changes and the mark stands where the count ran out; no view changes |
| `PagingScan.HaltNearer` | mm/swap.c:164-204 | a call that finds nothing brings the mark nearer, by more than its count, to every page beyond the count |
| `PagingScan.ScanFinds` | mm/swap.c:180-202 | the page the scan stops at is the nearest of those in reach |
| `PagingScan.ScanOver` | mm/swap.c:164-204 | when the count is used up nothing in reach was left |
| `PagingScan.PassedIsMissed` | mm/swap.c:164-204 | a page that could go but lies behind the mark in the first table is missed exactly when the tables together with its place outnumber the mark's place |
| `PagingSamples.PageIsMissed` | mm/swap.c:164-204 | a state with no frame free and one page that could go, of which nothing is in reach |
| `PagingSamples.SwapOutThatMisses` | mm/swap.c:154-205 | from that state swap_out gives up although the page could go |
| `Memory.Manager.Fork` | kernel/fork.c:68-134 | succeeds if and only if there is a free frame for the task struct, for each of the parent's tables and for each of its pages in swap; then the child sees the parent's pages and nobody else sees a change; on failure everything but the pages brought in from swap goes back |
| `PagingFrames.RunsOutMeans` | mm/memory.c:91-143 | the frames run out where the copy stopped, and a page in swap was brought in exactly if there was a frame for it in turn |
| `Memory.Manager.Exit` | kernel/exit.c:254-259 | the task's pages are gone and no other task's view changes; its task struct keeps its frame |
| `Memory.Manager.Reap` | kernel/exit.c:19-42 | the frame of the zombie's task struct is given back and nobody sees a change |
| `Memory.Manager.Gather` | fs/exec.c:113-129 | takes a frame for each argument page if and only if there are so many; else gives back those it has got |
| `Memory.Manager.PlaceArgs` | fs/exec.c:158-164 | the argument pages become the pages below the library area, marked dirty, and nothing else is seen to change; it fails exactly when there is no frame for their table |
| `Memory.Manager.Exec` | fs/exec.c:250-294 | the task finds, byte by byte, the files of its new image and the argument pages right below the library area, no other task's view changes; fails, unseen, exactly when there are fewer free frames than argument pages; for a task that had a page table, as every task that runs has, the frame this gives back suffices for the arguments' table and no frame is lost |
| `Memory.Manager.Carry` | mm/memory.c:510-519 | one request does to the tasks' pages what it does on a machine where nothing is shared or swapped; it fails if and only if there are fewer free frames than it takes, or nothing in swap_out's reach; loads, stores, forks and reaps take or give exactly the frames they should; the kernel then holds the task structs' frames and no other; the mark moves only in swap_out |
| `Memory.Manager.Run` | mm/memory.c:510-519 | every run of loads, stores, forks, exits, execs, reaps and swaps from boot on refines that machine at every point, every load returning what it holds; at every point the kernel holds the task structs' frames and no other; each request fails if and only if the state and mark it meets have not what it takes |
| `Memory.ReadPage` | mm/memory.c:408-424 | 4096 bytes of the file from 1024 past the offset on, the library area counting from its start, with what lies past the end of data cleared |
| `PagingImage.FreshShows` | mm/memory.c:378-424 | a page a task has never touched shows the bytes of its executable and library at the offsets the source reads, and zeros between |
| `PagingImage.ExecutedStarts` | fs/exec.c:158-164 | after exec all 64MB of the task: the argument pages end where the library begins, the rest are the files' bytes |
| `PagingLaws.FrameLaw` | mm/memory.c:103-141 | a count is the number of entries, tables and task structs naming the frame; a writable entry is the only name of its frame |
| `PagingLaws.NoLeak` | mm/memory.c:15-27 | a frame is taken if and only if a page of a task, a table or a task struct is in it |
| `PagingLaws.AllReturned` | kernel/exit.c:19-42 | when every task has left and been reaped, every frame and every swap slot is as after mem_init |
| `PagingLaws.CountsFit` | mm/memory.c:12-13 | no count exceeds 63, so the byte never overflows nor is taken for a reserved frame's mark |
| `Memory.Manager.WriteVerify` | mm/memory.c:230-246 | no view changes; the rule about clean pages is kept if and only if the page was writable or missing, or had one name in managed memory, or was in managed memory with its dirty bit clear, or, though dirty, held what a fault would read in |
| `PagingLaws.VerifiedInv` | mm/memory.c:198-216 | the same of un_wp_page on the entry |
| `PagingLaws.InheritedIsShared` | mm/memory.c:129-141 | after a fork the child names the parent's page as well, so write_verify in the child makes a copy |
| `Memory.Manager.LoseStore` | mm/memory.c:230-246 | where the rule fails: a byte stored before fork, the child's page verified for writing and then swapped out, is no longer seen by the child |
| `PagingSamples.RoomToFork` | mm/memory.c:230-246 | a state from which that happens |
| `PagingSamples.StoreThatIsLost` | mm/swap.c:146-151 | from that state the parent sees its byte and the child does not |
| `PagingLaws.BootedInv` | mm/memory.c:431-449 | the state after mem_init satisfies the invariant |
| `PagingSwap.DiscardUnseen` | mm/swap.c:146-151 | a page whose dirty bit is clear can be dropped without any view changing |
| `PagingOps.CopyOnWrite` | mm/memory.c:209-215 | the private copy shows the same page, is writable, and no other view changes |
| `PagingOps.PageOutKeeps` | mm/swap.c:136-144 | writing a page to a free slot keeps the invariant and every view |
| `PagingFaults.PageInKeeps` | mm/swap.c:104-111 | bringing a page in keeps the invariant and every view |
| `PagingFaults.SharedBacking` | mm/memory.c:316-322 | two tasks running one file read the same page in at the same offset |
| `PagingFaults.TwinKeeps` | mm/memory.c:297-303 | sharing another task's clean page is invisible to all |
| `PagingFork.CopyOne` | mm/memory.c:112-141 | each copied entry extends the agreement between child and parent by one page |
| `PagingFork.DuplicateSwappedKeeps` | mm/memory.c:118-127 | a swapped page is split so that every slot is named once and both tasks see it |
| `PagingFork.DuplicateSharedKeeps` | mm/memory.c:129-141 | a present page shared read-only keeps counts, single writers and views |
| `PagingTasks.UndoneCounts` | kernel/fork.c:45-48 | after a failed fork a count has grown by the pages of the parent that came in from swap, and no more |
| `PagingTasks.FailedForkRestores` | kernel/fork.c:45-48 | a failing fork restores every count if and only if the free frames run out before the parent's first page in swap is reached: at most one for the task struct and one for each table up to that page's |
| `PagingSamples.FailedForkKeepsPage` | mm/memory.c:118-127 | two pages in swap and three free frames: whatever the failed fork leaves, some count differs |
| `PagingSamples.ForkThatKeepsPage` | kernel/fork.c:76-104 | from that state the fork fails and some count differs |
| `AddressSpaces.RunIsolates` | mm/memory.c:198-228 | over any run, a task's pages change only through requests that concern that task |
| `AddressSpaces.SeenFork` | mm/memory.c:74-146 | what the tasks see after fork is the abstract machine's fork |
| `AddressSpaces.SeenStore` | mm/memory.c:198-228 | what the tasks see after a store is the abstract machine's store |
| `AddressSpaces.SeenReplaced` | kernel/exit.c:254-259 | what the tasks see after exit or exec is the abstract machine's |
| `AddressSpaces.SeenReaped` | kernel/exit.c:37 | giving back a task struct shows to nobody |
| `BufferCache.Cache.constructor` | fs/buffer.c:360-405 | all buffers unused, every block shows what the disk holds, the links are sound |
| `BufferCache.Cache.FindBuffer` | fs/buffer.c:171-178 | finds the block's buffer, or reports none exactly when no buffer has the block |
| `BufferCache.Cache.Select` | fs/buffer.c:213-230 | with clean unlocked unused buffers about, the first of them in the order of the free list behind its head, the head last; else, once the writes are started, a clean one before a dirty one and an unlocked before a locked one; none exactly when all are in use |
| `BufferCache.Cache.WriteAhead` | kernel/blk_drv/ll_rw_blk.c:73-98 | a dirty unlocked buffer is queued for writing exactly when the request table has room for a write |
| `BufferCache.Cache.Getblk` | fs/buffer.c:207-235 | the block's own buffer, or an unused candidate, or sleep when all are in use |
| `BufferCache.Cache.Settled` | fs/buffer.c:189-196 | the re-check in get_hash_table succeeds: a counted buffer still holds the block; it goes to the end of the free list, the others keeping their order |
| `BufferCache.Cache.Evict` | fs/buffer.c:236-261 | start over, write first, or give the candidate to the block, in exactly the source's cases |
| `BufferCache.Cache.Rehash` | fs/buffer.c:252-259 | the buffer moves from its old hash chain to the new one and to the end of the free list, the others keeping their order |
| `BufferCache.Cache.Bread` | fs/buffer.c:264-292 | the pieces of bread and brelse after getblk |
| `BufferCache.Cache.TryQueue` | kernel/blk_drv/ll_rw_blk.c:89-119 | a locked buffer gets a request exactly when a slot it may use is free, and else goes on waiting |
| `BufferCache.Cache.SectorDone` | kernel/blk_drv/hd.c:294-330 | the interrupt moves the served request on or ends it; at the end buffer and disk agree and no block's contents change |
| `BufferCache.Cache.Proceed` | fs/buffer.c:207-292 | a process does exactly the piece that is due where it sleeps |
| `BufferCache.Cache.Schedule` | fs/buffer.c:207-292 | over every interleaving at every sleep and every disk interrupt, the links stay sound, the free list is at every point in the order in which getblk last returned the buffers, buffers in transfer and pending requests correspond one to one, and each block shows exactly the stores made to it |
| `BufferOrder.ByUseNext` | fs/buffer.c:131-144 | each turn keeps the free list in the order of last use |
| `BufferOrder.GivesUpOldest` | fs/buffer.c:213-230 | of the buffers that can be taken at once, but the head of the list, getblk takes the one not used for longest |
| `BufferOrder.HeadIsSpared` | fs/buffer.c:214-217 | the one at the head, the oldest of all, is taken only when there is no other |
| `BufferRequests.NotPending` | kernel/blk_drv/ll_rw_blk.c:73-88 | a buffer not in transfer has no request pending for its block, so no two requests are for one block |
| `BufferRequests.OneRequest` | kernel/blk_drv/ll_rw_blk.c:73-119 | a buffer is in transfer if and only if a request serves it, and then one only: for its device and block, a read or a write as the buffer is read or written |
| `BufferRequests.JointKeeps` | kernel/blk_drv/ll_rw_blk.c:73-119 | every event keeps the cache, the request table and the correspondence of the two |
| `BufferLinks.Links.constructor` | fs/buffer.c:360-405 | one circular free list through all buffers, empty hash chains |
| `BufferLinks.Links.RemoveFromFreeList` | fs/buffer.c:105-113 | the list without that buffer, in the same order |
| `BufferLinks.Links.PutFirstFree` | fs/buffer.c:120-129 | the buffer becomes the first of the list |
| `BufferLinks.Links.PutLastFree` | fs/buffer.c:131-144 | the buffer becomes the last of the list |
| `BufferLinks.Links.AppendFree` | fs/buffer.c:146-151 | a loose buffer becomes the last of the list |
| `BufferLinks.Links.RemoveFromHashQueue` | fs/buffer.c:94-103 | the buffer leaves its chain, all other chains unchanged |
| `BufferLinks.Links.PushHash` | fs/buffer.c:158-162 | the buffer becomes the first of its chain |
| `BufferMoves.RunKeeps` | fs/buffer.c:207-292 | every run keeps one buffer per block and right counts, and shows exactly the stores made |
| `BufferMoves.HeldIsContents` | fs/buffer.c:276-292 | what bread returned is the block's contents for as long as it is held |
| `BufferMoves.CountedKeepsBlock` | fs/buffer.c:189-199 | a buffer with a count never changes its block |
| `BufferMoves.MoveKeeps` | fs/buffer.c:207-292 | each step keeps the invariant, and every block's contents but for a store by its holder |
| `MinixZones.FindFirstZero` | fs/minix/bitmap.c:38-51 | the first zero bit, or 8192 when there is none |
| `MinixZones.Volume.constructor` | fs/minix/inode.c:48-75 | the volume as found, unchecked, with the first zone bit set |
| `MinixZones.BlankIsSound` | fs/minix/inode.c:74 | a blank mounted volume satisfies the invariant |
| `MinixZones.Volume.NewBlock` | fs/minix/bitmap.c:83-112 | the lowest free zone, its bit, counted from the first data zone at 1, set and its block cleared; 0 exactly when every zone is marked |
| `MinixZones.Volume.FreeBlock` | fs/minix/bitmap.c:53-81 | clears exactly that zone's bit, counted from the first data zone at 1, unless its buffer is busy, and counts a warning if it was clear |
| `MinixZones.Volume.MapBlock` | fs/minix/inode.c:86-164 | returns, and with create maps, the zone named by the inode's first seven numbers, by the words of the block that number 7 names, or by word (block - 519) % 512 of the block named by word (block - 519) / 512 of the block that number 8 names; a new zone was free and is zeroed, every other block of every file keeps mapping and contents, every newly marked zone is named by the file, and 0 means that no zone is left |
| `ZoneModel.BmapIsZone` | fs/minix/inode.c:97-156 | the position a block stands at is the one those numbers and words lead to |
| `MinixZones.Volume.FreeInd` | fs/minix/truncate.c:9-33 | frees every zone under an index block and the block itself unless something is busy; no bit is cleared twice |
| `MinixZones.Volume.FreeDind` | fs/minix/truncate.c:35-59 | the same one level up |
| `MinixZones.Volume.TruncateRound` | fs/minix/truncate.c:66-83 | one round frees exactly the zones that are not busy and have nothing busy under them; no busy zone loses its mark; it succeeds if and only if no zone of the file is busy |
| `MinixZones.Volume.Truncate` | fs/minix/truncate.c:61-93 | with other processes creating and truncating blocks of other files between the rounds, this file only loses zones, each once, and its blocks not yet freed stay; when it ends the file has no zone; it ends with any round in which nothing that the file had at the start is busy |
| `ZoneLaws.ActShrinks` | fs/minix/truncate.c:84-88 | a round, or any act on another file, keeps what truncation has done so far |
| `ZoneSteps.PutValue` | fs/minix/inode.c:86-156 | writing one zone number changes what stands at one position of one file |
| `ZoneGrowth.FilledGrows` | fs/minix/inode.c:97-156 | a new zone on the way to a block leaves all other blocks of all files alone |
| `ZoneGrowth.CreatedLast` | fs/minix/inode.c:86-156 | the whole path: the requested block and nothing else is mapped anew |
| `ZoneSweep.SweepOne` | fs/minix/truncate.c:21-23 | freeing the zone at one position removes one mark and one name |
| `ZoneSweep.TrimmedTwice` | fs/minix/truncate.c:84-88 | rounds compose: marks removed are those of names erased |
| `ZoneLaws.TruncateReturnsAll` | fs/minix/truncate.c:61-93 | a file that was empty, grew by any blocks and was truncated leaves the zone bitmap and all other files' blocks as they were |
| `ProcessTable.Table.constructor` | include/linux/sched.h:166-196 | the table with task 0 alone satisfies the invariant |
| `ProcessTable.Table.FindEmptyProcess` | kernel/fork.c:52-66 | ends within 129 candidates with the next positive number no live task bears as pid or group, and the lowest free slot |
| `ProcessTable.Table.DoFork` | kernel/fork.c:76-151 | the child takes the lowest free slot, is linked as the youngest, has a pid no live task bears, the parent's group and no time charged; fails exactly without memory or slot, changing nothing |
| `ProcessTable.Table.AdoptOne` | kernel/exit.c:286-298 | one orphan is linked under task 1, whose child pointer is not NULL |
| `ProcessTable.Table.DoExit` | kernel/exit.c:254-309 | the task is a zombie without children, which stand in reverse order before task 1's own; every other task keeps pid, group, state, exit code and times |
| `ProcessTable.Table.Release` | kernel/exit.c:19-42 | the zombie leaves the table and its siblings close up |
| `ProcessTable.Table.WaitPid` | kernel/exit.c:338-404 | a positive pid asks for that child and reaps it if it is a zombie; 0 asks for the caller's group, -1 for any child, other negative numbers for that group; the youngest such child that is ready is reaped or reported; no child exactly when none such is running, sleeping, a zombie or stopped and to be reported; otherwise waits or returns 0 |
| `ProcessTable.WaitMeans` | kernel/exit.c:347-360 | the same of every outcome of one pass |
| `ProcessTable.Table.Reap` | kernel/exit.c:372-384 | the zombie's times, its own and its children's, go to the parent's child times; user and kernel time are each conserved |
| `ProcessTable.Table.AuditPtree` | kernel/exit.c:57-125 | complains exactly when some live task's links are bad |
| `ProcessTable.Table.AuditOne` | kernel/exit.c:62-122 | the source's tests of one task, none of which fires exactly when its links are sound |
| `ProcessTable.Table.DoTick` | kernel/sched.c:290-293 | one tick is charged to the current task, to utime in user mode and to stime in the kernel |
| `ProcessTable.Table.Run` | kernel/exit.c:57-125 | in every run of forks, exits, waits, ticks and switches audit_ptree never complains, zombies have no children, and the user and the kernel time charged grow by one per tick of each kind |
| `ProcessModel.LinksAudited` | kernel/exit.c:57-125 | the invariant implies every condition audit_ptree looks at |
| `ProcessModel.InitHasChild` | kernel/exit.c:292-295 | while any task besides 0 and 1 lives, task 1 has a child |
| `ProcessSteps.ForkKeeps` | kernel/fork.c:144-150 | linking a child keeps the tree |
| `ProcessSteps.AdoptKeeps` | kernel/exit.c:286-296 | handing a child to task 1 keeps the tree |
| `ProcessSteps.ReleaseKeeps` | kernel/exit.c:27-38 | taking a zombie out keeps the tree |
| `ProcessTable.InitMustStay` | kernel/exit.c:286-296 | the loop run by task 1 itself writes through NULL with one child and never ends with more; it is harmless only without children |
| `ProcessTime.FewTaken` | kernel/fork.c:52-61 | at most 128 candidates in a row can be taken |
| `ProcessTime.TimeMoves` | kernel/exit.c:373-374 | user and kernel time summed over all tasks stay when one task loses what another gains |
| `WaitQueues.Queues.DoWakeUp` | kernel/sched.c:164-182 | the queue is empty and every task sleeping in __sleep_on on it is runnable, stopped and zombie tasks keeping their state |
| `WaitQueues.Queues.GoToSleep` | kernel/sched.c:190-197 | the task is first on the queue and asleep |
| `WaitQueues.Queues.Proceed` | kernel/sched.c:200-202 | the task is on no queue; if it was still on its queue it has woken the rest |
| `WaitQueues.Queues.Run` | kernel/sched.c:164-204 | over all interleavings of sleeping, waking, signals and resuming, chains are finite and acyclic and every sleeping task is on its queue |
| `WaitModel.SleepKeeps` | kernel/sched.c:194-197 | joining a queue keeps every chain sound |
| `WaitModel.WakeKeeps` | kernel/sched.c:167-181 | waking a queue keeps every chain sound and leaves nobody of that queue asleep |
| `WaitModel.LeaveKeeps` | kernel/sched.c:200-202 | a woken task that goes on is on no chain |
| `Requests.Table.FindSlot` | kernel/blk_drv/ll_rw_blk.c:90-98 | the highest free slot, among the lower 21 for a write; none exactly when all those are taken |
| `Requests.Table.AddRequest` | kernel/blk_drv/ll_rw_blk.c:38-67 | the request is linked at the first place but the front where it comes before the next one and either after the one before or in a break of the order; reads come before writes, then lower devices, then lower sectors |
| `Requests.Table.MakeRequest` | kernel/blk_drv/ll_rw_blk.c:89-119 | accepted exactly when a slot it may use is free; then the highest such slot holds it, its own queue has it where the elevator rule puts it, and other slots and queues are unchanged |
| `Requests.Table.EndRequest` | kernel/blk_drv/blk.h:105-120 | the served request leaves, the rest keep their order |
| `Requests.Table.SectorDone` | kernel/blk_drv/hd.c:294-330 | the first sector moves the request on, the second ends it |
| `RequestSteps.QueueLaw` | kernel/blk_drv/ll_rw_blk.c:38-67 | at every point each queue lists exactly the pending requests of its device, each once; but for one place the command does not fall, where it stays the device does not fall, and where that stays the sector rises |
| `RequestSteps.ReadGoesNext` | kernel/blk_drv/ll_rw_blk.c:59-61 | a read with only writes waiting is served next if and only if it comes after the read being served or the writes begin with a break of the order |
| `RequestModel.InsertSweeps` | kernel/blk_drv/ll_rw_blk.c:52-65 | insertion keeps at most one pair of neighbours out of order |
| `RequestModel.AdvanceSweeps` | kernel/blk_drv/hd.c:302-304 | so does the head's sector moving on by one |
| `RequestModel.Overtakes` | kernel/blk_drv/ll_rw_blk.c:52-65 | a new request gets before an older one only if it comes before it in order or joins an earlier sweep |
| `Tty.Terminal.CopyToCooked` | kernel/chr_drv/tty_io.c:114-228 | the secondary queue is the left fold of editing over the bytes taken, until input or room is used up; data counts its line ends |
| `Tty.Terminal.EditIn` | kernel/chr_drv/tty_io.c:143-222 | one translated byte edits the queue, which does not overflow |
| `Tty.Terminal.Translated` | kernel/chr_drv/tty_io.c:131-142 | stripping, CR and NL mapping, lower-casing and dropping of one byte |
| `Tty.Terminal.KillLine` | kernel/chr_drv/tty_io.c:147-159 | the unfinished line goes, finished lines stay |
| `Tty.Terminal.ReadPiece` | kernel/chr_drv/tty_io.c:315-330 | one delivery: up to the first line end in canonical mode, end-of-file taken but not delivered, nothing taken once the bytes asked for are delivered |
| `LineModel.DeliveryIsOne` | kernel/chr_drv/tty_io.c:315-330 | the text and the number of bytes asked for settle what is taken and delivered |
| `Tty.Terminal.TryRead` | kernel/chr_drv/tty_io.c:298-330 | a reader waits in exactly the source's cases, and else gets its delivery |
| `Tty.Terminal.Run` | kernel/chr_drv/tty_io.c:114-330 | every event does what editing or one read does; in every run with countable settings data counts the line ends, and, unless a reader was given part of an unfinished line, the readers between them got the visible part of what editing makes of everything typed, the rest still waiting |
| `TtyRuns.DataIs` | kernel/chr_drv/tty_io.c:315-330 | whatever the settings, data is the number of line ends waiting plus those that left unrecognised |
| `TtyRuns.DataLaw` | kernel/chr_drv/tty_io.c:317-319 | data equals the number of line ends waiting in every run if and only if the end-of-file character is below 128 or cannot get into the queue |
| `TtyRuns.Miscount` | kernel/chr_drv/tty_io.c:317-319 | with any other settings: end-of-file typed, edited in and read leaves data at 1 with nothing waiting |
| `TtyRuns.CutIsFull` | kernel/chr_drv/tty_io.c:298-313 | with countable settings a reader gets part of an unfinished line only when the read queue is full |
| `TtyRuns.ReadersGet` | kernel/chr_drv/tty_io.c:114-330 | the deliveries of a whole run, in order, and what still waits make up the editing of everything typed |
| `TtyRing.Ring.Getch` | include/linux/tty.h:36-37 | the oldest byte leaves |
| `TtyRing.Ring.Putch` | include/linux/tty.h:38-39 | a byte joins where there is room |
| `TtyRing.Ring.Unput` | include/linux/tty.h:30 | the newest byte leaves |
| `LineModel.TypedArrives` | kernel/chr_drv/tty_io.c:129-142 | what CR, NL, capital letters, bytes from 128 on and all others arrive as under each setting |
| `LineModel.ReturnEndsLine` | kernel/chr_drv/tty_io.c:131-133 | with CR mapped to NL a typed CR ends the line |
| `LineModel.ControlActs` | kernel/chr_drv/tty_io.c:143-205 | what kill, erase, stop, start and the signal characters do, in the source's order of tests |
| `LineModel.EraseUndoes` | kernel/chr_drv/tty_io.c:161-176 | erase takes back exactly the byte before it |
| `LineModel.KillUndoes` | kernel/chr_drv/tty_io.c:144-160 | kill takes back everything typed since the last line end |
| `LineModel.CookAllKeepsLines` | kernel/chr_drv/tty_io.c:143-177 | no input removes or changes a finished line |
| `LineModel.EofGetsIn` | kernel/chr_drv/tty_io.c:144-222 | with settings that are not countable the end-of-file character joins the queue, counted by the editor and not by the reader |
| `LineModel.CookRecognised` | kernel/chr_drv/tty_io.c:144-222 | with countable settings editing never puts in a line end that the reader would not recognise |
| `Scheduler.Processor.Scan` | kernel/sched.c:125-136 | the highest-numbered runnable task of the largest counter, task 0 if none is runnable |
| `Scheduler.Processor.Schedule` | kernel/sched.c:124-145 | ends after at most one refill with the best task running; refills exactly when every runnable counter is 0 |
| `Scheduler.Processor.Tick` | kernel/sched.c:307-312 | with a fixed set of runnable tasks each has run exactly its counter's worth of ticks when the next refill comes |
| `Scheduler.Processor.Run` | kernel/sched.c:124-145 | over any number of ticks, in every stretch up to a refill each runnable task runs exactly as many ticks as its counter said where the stretch began |
| `Scheduler.ShareIsCounter` | kernel/sched.c:124-145 | the same for every history of ticks and refills |
| `Scheduler.RefilledOk` | kernel/sched.c:141-143 | a refill halves what a counter is above or below twice the priority, so counters below that stay below |
| `Scheduler.NeverChooses` | kernel/sched.c:124-144 | without a runnable task of positive counter or priority a refill changes no runnable task |
| `Scheduler.ZeroForEver` | kernel/sched.c:124-144 | then after any number of refills a scan still ends with a counter of 0 |
| `Scheduler.EndsExactly` | kernel/sched.c:124-144 | schedule ends, then after one refill at most, if and only if nobody is runnable or some runnable task has a positive counter or priority |
| `Scheduler.Processor.SysNice` | kernel/sched.c:355-362 | the priority after nice, refused exactly for a negative increment without privilege; it becomes 0 exactly for an increment equal to it |
| `Scheduler.NicedIs` | kernel/sched.c:358-360 | a priority never becomes negative, and 0 exactly for an increment equal to it |
| `Scheduler.NiceKeepsChoice` | kernel/sched.c:355-362 | all runnable tasks keep positive priorities, so that schedule ends, if and only if the increment is not the priority |
| `Scheduler.NiceStopsAll` | kernel/sched.c:355-362 | the only runnable task calls nice(15) at priority 15: fifteen ticks later schedule never ends |
| `Directories.FindEntry` | fs/minix/namei.c:65-112 | finds the entry with the name cut to 14 bytes, none exactly when the map has no such name |
| `Directories.AddEntry` | fs/minix/namei.c:139-195 | the first free entry or one at the end receives the name; fails exactly for the empty name or when full without a new block |
| `Directories.Volume.DoMknod` | fs/minix/namei.c:200-237 | the map gains the name, other names and directories unaffected; exact failure cases |
| `Directories.Volume.DoLink` | fs/minix/namei.c:490-521 | the map gains the name, other names and directories unaffected; exact failure cases; the file's count stays right exactly when it was below 255 |
| `Directories.Volume.DoUnlink` | fs/minix/namei.c:394-431 | the map loses the name, other names and directories unaffected; exact failure cases |
| `Directories.Volume.Run` | fs/minix/namei.c:200-521 | every event inserts or deletes exactly its name in its directory; names stay unique; the count of a file is the number of entries naming it unless a link found it at 255 before |
| `DirModel.MatchIsKey` | fs/minix/namei.c:12-30 | minix_match recognises exactly the padded form of the cut name, and "." for the empty one |
| `DirModel.KeyIs` | fs/minix/namei.c:12-30 | that form byte by byte: the first 14 bytes, then zeros |
| `DirModel.InsertKeeps` | fs/minix/namei.c:182-188 | filling a free entry is insertion into the map |
| `DirModel.DeleteKeeps` | fs/minix/namei.c:420 | freeing an entry is deletion from the map |
| `Directories.LinkUnlink` | fs/minix/namei.c:415-423 | link then unlink restores a count exactly when it was below 255 |
| `ExecArgs.ArgPages.CopyStrings` | fs/exec.c:78-135 | strings that fit are laid out packed below top, all other bytes unchanged, if and only if there are pages for them; it runs past the start of the space if and only if they do not fit and all 32 pages can be had, having filled it with the last bytes of the strings |
| `ExecModel.NeverTooLong` | fs/exec.c:108-111 | the source's test for too long a string never holds, and one step below 0 the page number is far outside the table |
| `ExecModel.LongString` | fs/exec.c:108-111 | a string that does not fit |
| `ExecArgs.ArgPages.PutByte` | fs/exec.c:113-129 | one byte goes to its place in its page, taken if need be |
| `ExecArgs.UserSpace.PlacePages` | fs/exec.c:158-164 | the argument pages are the top of the new address space |
| `ExecArgs.UserSpace.CreateTables` | fs/exec.c:33-60 | argc, argv and envp lie aligned below the strings, and the tables' pointers read back the strings in order, each table ending with 0 |
| `ExecArgs.UserSpace.PutPointers` | fs/exec.c:47-58 | one table: pointers to the strings in turn, then 0, the strings untouched |
| `ExecArgs.Execve` | fs/exec.c:250-294 | the call gets through if and only if the strings leave a byte of the space free and there are pages for them, and the new program then finds every string unchanged; it runs past the start of the space if and only if they do not fit, envp alone does not fill it and all 32 pages can be had |
| `ExecModel.StringIsOne` | fs/exec.c:50 | a reader finds one string at an address, the one that was put there |
| `Pipe.Fifo.WritePiece` | fs/pipe.c:62-76 | the bytes that fit before the end of the page join the pipe in order |
| `Pipe.Fifo.ReadPiece` | fs/pipe.c:26-42 | the oldest bytes leave in order |
| `Pipe.Fifo.PipeRead` | fs/pipe.c:26-42 | everything there is, or all that was asked for |
| `Pipe.Fifo.Run` | fs/pipe.c:11-77 | over every interleaving of pieces each piece puts or gets what it should, and what waited at first followed by all puts is all gets followed by what waits, at most 4095 bytes |

## Left out

- Directories.Volume.Run: says nothing of the count of a file that has once passed 255, where the source's count is wrong.
- ProcessTable.Table.DoTick: does not model the wrap-around of the time counters.
- Inodes: the inode table, minix_new_inode and the inode bitmap, minix_mkdir, minix_rmdir, minix_symlink and rename.
- Buffer cache: block_write's full-block path, invalidate_buffers, the discard inside minix_free_block, read-ahead, failed transfers.
- Path lookup, permissions, mounting of further volumes.
- Signals beyond their effect on task states: delivery, masks, orphaned process groups, job control.
- The timer list, alarms and timeouts of schedule.
- Echo, output processing, pseudo terminals and the non-canonical timing of tty_read.
- ll_rw_page and ll_rw_swap_file requests, error retries of the disk driver.
- The wait of pipe readers and writers, and select.
- Boot code, interrupt entry, port input and output, the console.
