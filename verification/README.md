# A verified model of the xv6 kernel's stateful core

This project models, in Dafny, the parts of this xv6 kernel (x86, with `dup2`, exit
statuses, lazy `sbrk` and a two-priority scheduler) that keep state, and two of its user
programs, and proves what they are for:

- the write-ahead log: crash atomicity over every run and every crash point;
- the buffer cache, the block allocator and inode contents: a cache refines a disk, block
  maps refine byte sequences, and every block has one owner;
- the K&R allocator of user programs;
- physical frames, two-level page tables and lazily filled address spaces, and who holds
  each frame over whole runs of fork, exec, exit, wait, page faults, sbrk and pipes;
- fork, exit, wait, sleep, wakeup and the scheduler, as state machines over all interleavings;
- file descriptors, reference counts and pipes;
- the shell's parser and grep's matcher.

Code that the source runs by changing state is a class, or a method with the source's loops,
proved against functions and predicates on values; whole runs are sequences of events over a
`Next` function, with theorems by induction over the run. Where a method is stated by a function
that follows the code, other theorems say what that function means without it: the process table by
`History`, the shell's grammar by `Syntax`, grep's patterns by the strings that write them.

| file | models |
|---|---|
| `Params.dfy` | param.h, and small definitions used everywhere |
| `LogDisk.dfy`, `LogRun.dfy`, `Log.dfy`, `Journal.dfy` | log.c: block writes, runs with crashes, the code, and that the code takes the steps of the runs |
| `Bio.dfy`, `BufferUsers.dfy` | bio.c: the cache, and the processes that hold its buffers |
| `CommitCache.dfy` | log.c's commit on the cache of bio.c |
| `FsState.dfy`, `Fs.dfy` | fs.c (blocks and contents), the chunk loop of file.c |
| `FileCrash.dfy`, `DiskLayout.dfy` | file.c over log.c: what a crash leaves of a write; the words of bitmap, inode and data blocks |
| `Umalloc.dfy` | user/umalloc.c |
| `Paging.dfy`, `Vm.dfy`, `Uvm.dfy` | kalloc.c, vm.c, the page-fault arm of trap.c, sbrk, the memory side of userinit, fork, exec, exit and wait |
| `Life.dfy` | the frames of all processes and pipes over whole runs |
| `Proc.dfy`, `History.dfy`, `ProcTable.dfy` | proc.c: the machine and its invariants, the table as a function of the events, the loops over the table |
| `Scheduler.dfy`, `SleepWake.dfy`, `SleepTable.dfy` | scheduler; sleep and wakeup lock by lock; that protocol on the process table |
| `Files.dfy`, `Pipe.dfy` | file.c, descriptor calls of sysfile.c, pipe.c |
| `Grammar.dfy`, `Syntax.dfy`, `RoundTrip.dfy`, `Shell.dfy` | user/sh.c: the grammar, the language as a relation, the round trip, the code |
| `Grep.dfy` | user/grep.c |

How some things are represented:

- A crash is the loss of power after any number of single-block writes. `LogDevice.power` is
  that number; the methods stop when it is used up.
- A commit is one step with respect to other operations, because `committing` keeps them out
  of `begin_op`; with respect to crashes it is as many steps as it has block writes.
- Every resource (frame, disk block) has one entry in a ghost owner map, so "owned once" and
  "freed once" are facts about a map and not about counting.
- `malloc` is split where it restarts: one lap of its loop, then growth, then another lap.
- `deallocuvm` and `itrunc` clear the entry and then free the page or block; the source frees
  first. No other code runs between the two.
- A page-table word is a frame number, a present bit and the other flag bits. A translation
  (`Paging.Look`) has the flags that the directory entry and the page-table entry both grant.
- A frame's owner is the free list, the kernel function that holds it for the moment, the kernel
  stack of a process, the page of a pipe, a directory, a page table or a user page. Between
  calls no frame is in a function's hands (`Paging.Settled`).
- A large invariant is folded behind a quantifier over `Params.Unfold` or `Params.Expand`, and
  opened only where it is needed. This changes no meaning: both hold of every number.
- `Umalloc.NoGrowth` is where `morecore` calls `sbrk` with a number of bytes that is negative or
  0. The model stops there; the source would shrink the heap, or go on without new memory.
- In the process machine a step is one critical section of `ptable.lock`, or one unlocked
  assignment of fork. `exits` and `reaps` record what `exit` was given and `wait` returned.
- In the scheduler, `world` gives the table found after each context switch. It is arbitrary,
  so it stands for all that processes and other CPUs may have done.

Findings about the code, each proved with its exact condition:

- The panic "too big a transaction" is unreachable exactly when the log has room for LOGSIZE
  blocks besides its header (`LogRun.LogLargeEnough`). mkfs.c reserves LOGSIZE blocks in all,
  one short. Whatever the size, logged blocks and unused reservations stay within LOGSIZE
  (`LogRun.SpaceHolds`).
- `log_write` tests for a full log before it looks for the block in the log, so writing a
  block that is already logged can panic (`LogRun.AbsorptionCheckedTooLate` gives the run).
  Exactly when it panics: per call, the `ok` clause of `Log.LogDevice.LogWrite`; over runs, with
  a large enough log, exactly when LOGSIZE blocks are logged, and then the block is one that its
  operation has logged before (`LogRun.PanicsWhenFull`).
- `malloc`'s number of units covers the request exactly when rounding up does not wrap 32 bits
  (`Umalloc.LargeEnough`); a request of 2^32 - 1 bytes gets one unit, all header
  (`Umalloc.WrappingRequest`).
- `morecore` asks `sbrk` to grow exactly for the requests given by `Umalloc.GrowsWhen`. For the
  others, from 2^31 - 15 to 2^32 - 8 bytes, it asks to shrink the heap, under live blocks, or
  asks for nothing (`Umalloc.ShrinkingRequests` has one of each).
- Shrinking a process to size 0 frees its pages, yet `sbrk` returns -1 and keeps the old size;
  no other shrink does so (`Uvm.Sbrk` has the exact cases of -1, `Uvm.SbrkToZero` what is lost then).
- A page fault on a page that is already present panics in `mappages`, unless the page is the
  recorded guard page or memory has run out (`Uvm.PageFault`). `fork` copies the guard page and
  not `p->guard_page`, so a child that touches it panics the kernel (`Uvm.ChildTouchesGuard`).
- `exec` sets `p->guard_page` as soon as the segments are loaded, which is exactly when the file
  is well formed and enough frames are free (`Uvm.Loads`). An `exec` that fails after that, because
  the argument strings and `argv` do not fit into the stack page or frames for it are missing,
  leaves the old program without its recorded guard page. An argument of 4096 characters does it,
  and the old program then panics the kernel when it touches its guard page
  (`Uvm.FailedExecMovesGuard`).
- Reading a hole allocates its block, and so calls `log_write`. `fileread` calls `readi` outside
  any operation: it panics exactly if the range meets a hole while no operation is running anywhere
  (`Fs.FileSystem.ReadI`, `Fs.FileSystem.ReadHole`). mkfs.c makes a root directory with a hole
  exactly if its entries fill their blocks, 32 entries each (`Fs.MkfsRoot`).
- A commit needs a buffer that is neither dirty nor in use, and finds one exactly if there is one
  when it starts (`CommitCache.Commit`). NBUF is LOGSIZE, so while no buffer is in use that is so
  exactly for fewer than LOGSIZE blocks (`CommitCache.RoomForCommit`): the log that mkfs.c makes is
  small enough, and one that is large enough for `log_write` is too large for `bget`.

- `kill` does not look at the state of a slot and `fork` does not clear `killed`. kill(0) marks a free
  slot, and the next child in it is born killed (`ProcTable.BornKilled`). Exactly the slots that were
  killed since their last reap are marked (`History.KilledUntilReaped`).

## Model

| member | source | states |
|---|---|---|
| `LogDisk.RecoveryCrash` | log.c:69-122 | Losing power after any number of recovery's writes leaves a disk that recovers to the same home blocks. |
| `LogDisk.RecoveryIdempotent` | log.c:115-122 | Recovering a recovered disk changes no home block, and the log is empty after recovery. |
| `LogDisk.CommitCrash` | log.c:177-202 | After any number of a commit's writes the disk recovers to the old home blocks if the header was not written, and to the whole group if it was; nothing in between. |
| `LogDisk.CommitDone` | log.c:192-202 | A finished commit has installed the whole group and emptied the log. |
| `LogRun.InvHolds` | log.c:125-233 | Every step of every run keeps the relation between disk, cached view, committed groups and pending writes, and between operations and their writes. |
| `LogRun.CrashAtomicity` | log.c:69-233 | In every reachable state, crashes and interrupted recoveries included, recovery yields exactly the initial home blocks overwritten by the committed groups in order; while up, operations see those and the pending writes. |
| `LogRun.OperationsAreAtomic` | log.c:125-202 | Of every operation's writes all are committed, in order, or none; none while the operation runs. |
| `LogRun.CrashThenRecover` | log.c:115-122 | A crash followed by any number of interrupted recoveries neither loses nor adds a committed group, and ends with exactly those groups on disk. |
| `LogRun.CrashKeepsWholeOperations` | file.c:126-152 | Of operations issued one after the other, such as the chunks of a write, a crash at any moment leaves the home blocks as they were after the first m of them, for some m. |
| `LogRun.SpaceHolds` | log.c:125-141 | Whatever the size of the log: if each operation logs at most MAXOPBLOCKS distinct blocks, the logged blocks plus all unused reservations stay within LOGSIZE in every run. |
| `LogRun.PlansFit` | file.c:126-152 | A run whose operations log, block by block, as plans that keep within the reservation say, which `Fs.FileSystem.FileWrite` proves of each of its operations, stays within LOGSIZE in every reachable state, and never panics if the log is large enough. |
| `LogRun.LogLargeEnough` | log.c:213-222 | No run of such operations panics for lack of log space if and only if the log has LOGSIZE blocks besides the header. |
| `LogRun.AbsorptionCheckedTooLate` | log.c:213-231 | With a log that is large enough there still is a run in which rewriting a block that is already logged panics. |
| `LogRun.PanicsWhenFull` | log.c:213-222 | In any run with a large enough log, log_write panics if and only if LOGSIZE blocks are logged, and then the block is one its operation already logged and no reservation is unused. |
| `LogRun.UnlockedTest` | log.c:213-231 | The test for a full log, made before log.lock is taken, panics only if a test at the time of the entry would: while an operation runs the log only grows. |
| `Log.CommitOutcome` | log.c:192-202 | What the commit code leaves for any power budget recovers to the old blocks or to the whole group. |
| `Log.LogDevice.WriteLog` | log.c:177-190 | Performs the copies of the logged blocks into the log, in order, up to the loss of power. |
| `Log.LogDevice.InstallTrans` | log.c:69-82 | Performs the installation writes in order up to the loss of power, and no logged block stays dirty. |
| `Log.LogDevice.WriteHead` | log.c:101-113 | Performs the one header write that carries the in-memory list. |
| `Log.LogDevice.ReadHead` | log.c:85-96 | Loads the list that is in the header block. |
| `Log.LogDevice.RecoverFromLog` | log.c:115-122 | Performs recovery's writes up to the loss of power; whatever happens the disk still recovers to the same home blocks. |
| `Log.LogDevice.Commit` | log.c:192-202 | Performs exactly the writes of a commit up to the loss of power, and then the cache is clean. |
| `Log.LogDevice.BeginOp` | log.c:125-141 | Admits an operation exactly when no commit runs and the log can hold every reservation. |
| `Log.LogDevice.LogWrite` | log.c:213-233 | Panics exactly when the log is full or no operation runs; otherwise the list absorbs the block and readers see the new data. |
| `Log.LogDevice.EndOp` | log.c:145-174 | The last operation out commits; the disk it leaves, with or without power, recovers to the old view or to the new one. |
| `Journal.Journal.Recover` | log.c:115-122 | Recovery on the device is one recovery step of the run machine, complete or cut off by the loss of power. |
| `Journal.Journal.Begin` | log.c:125-141 | begin_op on the device admits exactly when the run machine does, and takes its step. |
| `Journal.Journal.Write` | log.c:213-233 | log_write on the device takes the machine's step, and panics exactly when that does. |
| `Journal.Journal.End` | log.c:145-174 | end_op on the device takes the machine's step, with as many of the commit's block writes as there was power for. |
| `Journal.Journal.PowerCycle` | log.c:115-122 | Loss of power between any two calls is the machine's crash step, and loses no committed group. |
| `Journal.Journal.Durable` | log.c:69-233 | After any history of calls and crashes on the device, its disk recovers to the committed groups in order. |
| `FileCrash.OperationCarried` | log.c:69-82 | Replaying the blocks that an operation logged takes the home blocks from its first state to its last, because it logged every block that it changed. |
| `FileCrash.CrashKeepsWholeChunks` | file.c:117-156 | Whenever the power fails during a write that has the log for itself, also in the middle of an operation or of a commit, recovery yields the home blocks of a state in which the file has the first m chunks of the data overwritten and no more, and no other file has changed. |
| `DiskLayout.EncodeLocal` | fs.h:29-48 | Written out in words as the source lays it out, a block of the disk depends on its own part of the state only, as `FileCrash.CrashKeepsWholeChunks` needs. |
| `DiskLayout.BitReadBack` | fs.c:56-96 | The bit that balloc and bfree look at, in the block and at the place they compute, is the bit of their block. |
| `DiskLayout.NodeReadBack` | fs.c:221-237 | The dinode that iupdate writes, in the block and at the place it computes, has the size and addresses of its inode. |
| `DiskLayout.DataReadBack` | fs.c:453-512 | A data block in words holds its bytes, least significant first. |
| `Bio.Cache.constructor` | bio.c:38-56 | Builds the ring of all NBUF buffers, none in use, and the cache agrees with the disk. |
| `Bio.Cache.Bget` | bio.c:61-93 | Gives the block's only buffer, or recycles the least recently used one that is neither referenced nor dirty; panics exactly when there is none. |
| `Bio.Cache.Bread` | bio.c:96-106 | The locked buffer holds the latest contents of the block. |
| `Bio.Cache.Bwrite` | bio.c:109-116 | The data become the latest contents and the disk's, and the buffer is clean. |
| `Bio.Cache.Pin` | log.c:213-233 | Data stored in a locked buffer become the latest contents, and the buffer is dirty and so never recycled. |
| `Bio.Cache.Brelse` | bio.c:120-141 | Drops the lock and one reference when nobody comes in between; at the last one the buffer moves to the front of the ring and the others keep their order. |
| `Bio.Cache.Drop` | bio.c:128-141 | The critical section of brelse, when another process may already have the lock: one reference less, and the move to the front exactly at the last one. |
| `Bio.Cache.MoveToFront` | bio.c:130-138 | The pointer surgery takes one buffer out of the doubly linked ring and puts it first. |
| `BufferUsers.Undisturbed` | bio.c:61-141 | Over any run of steps of other processes, a process that holds a reference keeps its buffer and, if it has the lock, the buffer's data. |
| `BufferUsers.OneWriter` | bio.c:61-93 | Two references to one block are to one buffer, so at most one process has the block locked. |
| `BufferUsers.Users.Get` | bio.c:61-93 | bget adds one holder for the block asked for; every reference count equals the number of holders, and all other holders keep their buffers. |
| `BufferUsers.Users.Lock` | bio.c:73-89 | Taking the free sleep lock makes this holder the only one with the lock. |
| `BufferUsers.Users.Read` | bio.c:96-106 | Whatever others did since bget, the locked buffer holds the latest contents of the block that bget was asked for. |
| `BufferUsers.Users.Store` | bio.c:109-116 | What the holder of the lock stores, by bwrite or by pinning, becomes the latest contents of its block and of no other. |
| `BufferUsers.Users.Unlock` | bio.c:123-126 | Giving the lock up keeps the reference, and disturbs no other holder. |
| `BufferUsers.Users.Drop` | bio.c:128-141 | The reference goes, also when another holder has the lock by then, and disturbs no other holder. |
| `BufferUsers.Users.StillLatest` | bio.c:96-106 | A holder whose buffer is valid reads the latest contents of its block at any later time. |
| `CommitCache.Get` | bio.c:96-106 | bread gives the block's buffer, locked, with its latest contents; it panics exactly if no buffer holds the block and none may be recycled. |
| `CommitCache.WriteLog` | log.c:177-190 | Copies every logged block to its log block exactly if some buffer may be recycled, and keeps all logged blocks dirty. |
| `CommitCache.InstallTrans` | log.c:69-82 | Never lacks a buffer after write_log, and puts each logged block on disk as it was in the cache, and no other. |
| `CommitCache.Commit` | log.c:192-202 | Finds its buffers if and only if there is nothing to commit or some buffer is neither dirty nor in use at the start; then the logged blocks are on disk as they were in the cache, and no other home block has changed. |
| `CommitCache.RoomForCommit` | log.c:192-202 | While no buffer is in use, there is such a buffer if and only if fewer than LOGSIZE blocks are logged. |
| `FsState.TakeBlock` | fs.c:56-78 | Marking a free block keeps the bitmap equal to metadata plus owned blocks. |
| `FsState.BitmapExact` | fs.c:56-96 | Between calls a bit is set if and only if the block is metadata or some inode names it: no leak and no block in use that looks free. |
| `FsState.SlotsApart` | fs.c:373-401 | No block is named by two slots of one inode or of two. |
| `FsState.SetIndirect` | fs.c:386-398 | Entering a fresh block in the indirect block keeps every block owned once and changes no other slot of any inode. |
| `FsState.DetachDirect` | fs.c:415-420 | Clearing a slot lets go of exactly its block. |
| `FsState.DetachIndirect` | fs.c:422-432 | Clearing the indirect slot lets go at once of the indirect block and of all the blocks it lists, and of no other. |
| `FsState.CoveredMore` | log.c:205-212 | Logging a block after changing it keeps every block that differs from the start of the operation among the logged ones. |
| `Fs.FileSystem.Balloc` | fs.c:56-78 | Takes the first free block, zeroed and marked, or fails exactly when every bit is set. |
| `Fs.FileSystem.Bfree` | fs.c:81-96 | A block let go of by its owner always has its bit set, so "freeing free block" cannot happen. |
| `Fs.FileSystem.Bmap` | fs.c:373-401 | Gives the file's block, allocating what is missing and leaving no block allocated and unnamed; no byte of any file changes, no other block of the file moves, a mapped block costs nothing; fails if and only if fewer bits are clear than blocks are missing, the indirect block included; and the distinct blocks logged are bounded. |
| `Fs.FileSystem.WriteI` | fs.c:482-512 | Refines overwriting the byte sequence at an offset, across direct and indirect blocks and holes; no other file changes and no block leaks; fails exactly on the source's tests; runs out of blocks if and only if fewer bits are clear than the range needs, holes and indirect block counted, and then some prefix of the data is written; a chunk of three blocks of a file without holes logs at most MAXOPBLOCKS distinct blocks. |
| `Fs.FileSystem.ReadI` | fs.c:453-477 | Refines slicing the byte sequence, cut off at the size, for any file: holes read as zeros and the blocks allocated for them change no file; a range without holes changes nothing; panics if and only if the range passes the largest file, or has a hole while no operation is running, or needs more blocks than bits are clear. |
| `Fs.FileSystem.ReadHole` | file.c:96-112 | Reading a file whose first block is a hole, outside any operation, panics. |
| `Fs.MkfsRoot` | mkfs.c:157-162 | The root directory that mkfs rounds up to a block has no hole if and only if its last block was not full. |
| `Fs.FileSystem.Itrunc` | fs.c:408-436 | Frees exactly the blocks the inode owned, each once, and leaves it empty on disk as in memory. |
| `Fs.FileSystem.IUpdate` | fs.c:221-237 | The inode on disk becomes the one in memory, for one logged block. |
| `Fs.FileSystem.FileWrite` | file.c:117-156 | The chunks together overwrite the file at the offset, in operations of three blocks each; the blocks that each operation logs stay within its reservation, before every log_write as at the end, for any offset and any number of bitmap blocks; every block an operation changes, data, bitmap, indirect or inode, is one it logs; and after k operations the file on disk has the first k chunks. |
| `Fs.WroteContent` | fs.c:482-512 | Writing block by block, and the size update, amount to one overwrite of the contents and leave the other files as they were. |
| `Fs.OverwriteMore` | file.c:134-152 | Two adjacent overwrites are one overwrite of the joined data. |
| `Fs.ReadBack` | fs.c:453-512 | The range just overwritten holds the data written; every byte outside it is what it was, and the size grows only as far as the range reaches. |
| `Fs.FileSystem.WriteThenRead` | fs.c:453-512 | writei and then readi of the same range of a file without holes gives the data back. |
| `Umalloc.PlaceTests` | user/umalloc.c:30-32 | The two tests of free's loop hold at the one list position where the block belongs and at no other. |
| `Umalloc.GoodFree` | user/umalloc.c:24-44 | Inserting a freed block with both coalescings keeps the ring sorted, apart, without touching neighbours, and the units add up. |
| `Umalloc.InsertedCovers` | user/umalloc.c:33-43 | The free list with a block put in covers exactly the units it did and those of the block, whatever was joined. |
| `Umalloc.LargeEnough` | user/umalloc.c:69 | The unit count covers the request if and only if rounding up does not wrap. |
| `Umalloc.WrappingRequest` | user/umalloc.c:69 | The largest request wraps round to one unit. |
| `Umalloc.GrowsWhen` | user/umalloc.c:46-61 | Exactly which requests make morecore ask sbrk to grow and not to shrink. |
| `Umalloc.ShrinkingRequests` | user/umalloc.c:46-61 | Two requests for which morecore calls sbrk with a negative number, and with 0. |
| `Umalloc.SearchEnds` | user/umalloc.c:74-88 | When the search is back at freep it has seen every free block and none fits. |
| `Umalloc.Allocator.FindPlace` | user/umalloc.c:29-32 | Free's loop ends, at the position where the block belongs. |
| `Umalloc.Allocator.Free` | user/umalloc.c:24-44 | The free list, sorted and without touching blocks, covers exactly the units it did and those of the block; the block is live no more, and freep is its predecessor. |
| `Umalloc.Allocator.MoreCore` | user/umalloc.c:46-61 | Growth adds exactly the new units to the free list, in a block that is large enough and ends at the break, and leaves the other blocks; or nothing changes; stops exactly when sbrk's argument is not positive. |
| `Umalloc.Allocator.Lap` | user/umalloc.c:74-88 | One lap ends, finds a block exactly when some free block fits, and then the first from freep on. |
| `Umalloc.Allocator.TakeWhole` | user/umalloc.c:77-78 | An exact fit leaves the list, which loses exactly its units, and becomes live; freep is its predecessor. |
| `Umalloc.Allocator.TakeTail` | user/umalloc.c:79-83 | A larger block is cut: its last units, and no others, leave the list and become live; units add up. |
| `Umalloc.Allocator.Malloc` | user/umalloc.c:63-90 | The result is a new live block of the counted number of units, apart from all others: the end of the first free block from freep on that fits, or the end of the heap if none did and it grew, and exactly these units leave the free list; the break moves only if no free block fits; both searches end, also after growth; the exact cases of the null pointer and of `NoGrowth`. |
| `Paging.AddTable` | vm.c:35-55 | Linking a zeroed frame as page table gives it one owner and changes no translation. |
| `Paging.MapUser` | vm.c:60-80 | Entering a frame for an absent page changes that translation only and moves the frame to that page. |
| `Paging.UnmapUser` | vm.c:269-276 | Clearing an entry removes that translation only and frees its frame. |
| `Paging.FlagUser` | vm.c:303-312 | Other flags on a present page change that translation only, and no frame's owner. |
| `Paging.DropTable` | vm.c:292-297 | A page table none of whose user pages is present can be freed without touching any other directory. |
| `Vm.Machine.constructor` | kalloc.c:46-53 | After freerange every frame of the range is on the free list, once. |
| `Vm.Machine.Kalloc` | kalloc.c:82-95 | Takes a frame that was free, or fails exactly when none is. |
| `Vm.Machine.Kfree` | kalloc.c:59-77 | The frame is free again and no translation or other page changes. |
| `Vm.Machine.TakeStack` | proc.c:97-101 | The frame becomes the kernel stack of that process, or there is none exactly when the free list is empty. |
| `Vm.Machine.FreeStack` | proc.c:303-304 | The stack of that process, and no other frame, is free again. |
| `Vm.Machine.TakePipe` | pipe.c:31-32 | The frame becomes the page of that pipe, or there is none exactly when the free list is empty. |
| `Vm.Machine.FreePipe` | pipe.c:70-73 | The page of that pipe, and no other frame, is free again. |
| `Vm.Machine.WalkPgdir` | vm.c:35-55 | Finds the table of a page, taking exactly one frame when it has to make it; the new directory entry grants all that the pages of the table may grant, so no translation changes, flags included; fails exactly for lack of that frame. |
| `Vm.Machine.MapPage` | vm.c:60-80 | Maps one absent page, or reports remapping exactly when it is present, or lack of memory exactly when its table is absent and no frame is free; otherwise nothing changes. |
| `Vm.Machine.MapPages` | vm.c:60-80 | Adds exactly its range of translations to the flat map, and takes exactly as many frames as its range has directory entries without a table. |
| `Vm.Machine.ClearPteU` | vm.c:303-312 | The page keeps its frame and contents and loses the user flag; no other translation changes; panics exactly without a table. |
| `Vm.Machine.SetupKvm` | vm.c:118-136 | The new directory maps exactly the rows of kmap; it fails if and only if fewer frames are free than the directory and the page tables of the rows take, and then every frame has its old owner. |
| `Vm.KernelTables` | vm.c:105-115 | The rows of kmap, for any place of the kernel's data, take 64 page tables. |
| `Vm.KernelMap` | vm.c:105-115 | The rows of kmap map physical memory at KERNBASE and devices at their own addresses, and nothing else; exactly the kernel's text is not writable, and no page has the user flag. |
| `Vm.Machine.DeallocRound` | vm.c:265-277 | One turn of the loop, including the jump over an absent table, skips no present page. |
| `Vm.Machine.DeallocUvm` | vm.c:255-279 | Removes exactly the pages of the range and frees exactly their frames. |
| `Vm.Machine.FreeVm` | vm.c:283-299 | Frees exactly the frames that belonged to the directory, and no other directory or data changes. |
| `Uvm.AllocUvm` | vm.c:221-249 | Adds zeroed, writable user pages for exactly the new range; fails if and only if the limit is reached or fewer frames are free than new pages and missing tables take, and then the old translations are restored and only page tables stay taken. |
| `Uvm.CopyUvm` | vm.c:316-348 | The child's pages below the size have the parent's contents and flags in frames of its own, absent pages stay absent; fails if and only if fewer frames are free than directory, tables and present pages take, and then every frame has its old owner. |
| `Uvm.FilledMeaning` | trap.c:84-126 | Filling absent pages with zeros changes no byte of the address space. |
| `Uvm.GrownMeaning` | sysproc.c:61-66 | Raising the size without allocating appends zero pages. |
| `Uvm.EagerIsLazy` | vm.c:221-249 | An eagerly grown address space means the same as a lazily grown one. |
| `Uvm.ShrunkMeaning` | vm.c:255-279 | Deallocating only truncates the address space. |
| `Uvm.CopiedMeaning` | vm.c:316-348 | A copied address space means the same as the original. |
| `Uvm.PageFault` | trap.c:84-126 | Killed if and only if the address is beyond the size, in the guard page, or the frames for page and table are not there; otherwise fills the page writable; no byte of any address space changes, and frames move only between the free list and this process; the exact case of the remap panic. |
| `Uvm.Sbrk` | sysproc.c:51-69 | Returns the size before the call, or -1 exactly if the size was 0 or the new one is, by a shrink; growth takes no frame and appends zeros from the next page boundary on; shrinking truncates and frees exactly the frames of the pages dropped; no other address space changes; what is left after -1. |
| `Uvm.SbrkToZero` | proc.c:160-178 | Among shrinks, exactly the one to size 0 drops pages below the size it leaves and returns -1. |
| `Uvm.ForkMemory` | proc.c:183-200 | The child gets a kernel stack and a copy that means what the parent's address space meant before the call, while every address space reads as before; fails if and only if fewer frames are free than that takes, and then every frame has its owner. |
| `Uvm.ChildTouchesGuard` | proc.c:183-228 | After exec's clearpteu and a fork, a child that touches the copied guard page panics in mappages whenever a frame is free. |
| `Uvm.UserInit` | proc.c:121-136 | The first process gets a stack and an address space of one page, the given code, exactly when there are frames for it. |
| `Uvm.GrowImage` | vm.c:221-249 | allocuvm on a new image succeeds if and only if the limit is not reached and the frames for the new pages and tables are free, and takes exactly those. |
| `Uvm.LoadSegments` | exec.c:41-58 | All segments are loaded if and only if each is well formed and below the limit and the pages and tables up to the largest end are free. |
| `Uvm.ImageReaches` | exec.c:41-58 | The size after the segments is the largest end of a segment. |
| `Uvm.AddStackPages` | exec.c:64-72 | The two pages on top are there if and only if they are below the limit and their frames are free; the lower one loses the user flag, and no other page does. |
| `Uvm.CopyOut` | vm.c:367-389 | Succeeds if and only if every page of the range is present with the user flag. |
| `Uvm.PushArgs` | exec.c:74-91 | The strings and the array of pointers go on the stack if and only if there are at most MAXARG strings and all of it, each string rounded to words, fits into the one stack page; a stack pointer that runs below it, or wraps, always meets a page without the user flag. |
| `Uvm.ExecMemory` | exec.c:38-117 | The process has a new address space that ends in a guard page without the user flag and a stack page, and every frame of the old one is free; or no frame and no translation changed. Success if and only if the segments are well formed, the image and its stack end below the limit, the frames for all pages and tables are free, and the arguments fit; guard_page changes if and only if the segments are well formed and the frames up to them are free. |
| `Uvm.FailedExecMovesGuard` | exec.c:67-91 | With one page of program and one argument of 4096 characters exec fails and has moved guard_page; touching the old guard page then panics in mappages. |
| `Uvm.ExitMemory` | proc.c:273-274 | exit frees exactly the process's user frames, and every other address space keeps its translations and contents. |
| `Uvm.WaitMemory` | proc.c:301-305 | wait frees the kernel stack, the page tables and the directory, and nothing else, and every other address space keeps its translations and contents. |
| `Life.OneHolder` | kalloc.c:59-95 | Between calls every frame is free or held by exactly one process, one pipe or the kernel's directory: no leak and no sharing. |
| `Life.UntouchedMeaning` | vm.c:316-348 | A process whose frames are left alone reads what it read. |
| `Life.Isolation` | proc.c:183-325 | Over every interleaving of fork, exec, exit, wait, faults, sbrk and pipe calls, a process or pipe that takes no step keeps its frames, their data and its address space. |
| `Life.ChangedByActors` | proc.c:183-325 | A frame whose owner differs after a run is held, before or after it, by a party that took a step. |
| `Life.Conservation` | proc.c:183-325 | Over every interleaving: if the parties that took steps exist neither before nor after the run, every frame has the owner it had. |
| `Life.NothingLeft` | kalloc.c:59-95 | Without processes, pipes and kernel directory every frame is on the free list. |
| `Life.Kernel.constructor` | kalloc.c:30-53 | After kinit all frames are free, and the run is empty. |
| `Life.Kernel.KvmAlloc` | vm.c:140-145 | The kernel's directory exists exactly if 65 frames were free; a step of the kernel alone. |
| `Life.Kernel.First` | proc.c:121-157 | The first process exists exactly if 68 frames were free, and reads its code. |
| `Life.Kernel.Fault` | trap.c:84-126 | A page fault is a step of its process alone and changes nothing it reads. |
| `Life.Kernel.Grow` | sysproc.c:51-69 | sbrk is a step of its process alone; it returns the old size, or -1 in the exact cases of `Uvm.Sbrk`, and the process reads what it read with zeros appended, or a prefix of it. |
| `Life.Kernel.Fork` | proc.c:183-228 | fork succeeds exactly if 66 frames and those of the copy are free; it is a step of the child alone, which reads what its parent read; guard_page stays what it was in the slot. |
| `Life.Kernel.Exec` | exec.c:38-117 | exec is a step of its process alone, whether it succeeds or not; it succeeds, and it changes guard_page, in exactly the cases of `Uvm.ExecMemory`, with 65 frames for the kernel's part. |
| `Life.Kernel.Exit` | proc.c:273-279 | exit is a step of its process alone and frees exactly its user frames. |
| `Life.Kernel.Wait` | proc.c:301-316 | After wait exactly the frames that the zombie held are free in addition; a step of the zombie alone. |
| `Life.Kernel.PipeAlloc` | pipe.c:22-57 | A step of the pipe alone; the page is there exactly if a frame was free. |
| `Life.Kernel.PipeFree` | pipe.c:59-75 | A step of the pipe alone; exactly its page is free in addition. |
| `Proc.FamilyStep` | proc.c:73-540 | Every critical section keeps the invariant on parents, forks in progress, channels and waiters. |
| `Proc.LedgerStep` | proc.c:183-325 | Every critical section keeps pids unique and accounts for every exit. |
| `Proc.ExitWakesInit` | proc.c:261-271 | If exit passes a zombie to init, init is awake afterwards. |
| `Proc.RunInv` | proc.c:73-540 | Both invariants hold after every run. |
| `Proc.NoZombieMissed` | proc.c:257-325 | In every reachable state no process asleep in wait has a zombie child. |
| `Proc.ParentsLive` | proc.c:183-280 | In every reachable state every live or zombie process other than init has a live parent that is not itself. |
| `Proc.InitLives` | proc.c:243-244 | init is alive in every reachable state. |
| `Proc.ReapedOnce` | proc.c:284-325 | Over every run wait returns each pid at most once. |
| `Proc.ReapedTruly` | proc.c:284-325 | Over every run, every pid wait returns is that of a process that exited, with the status it gave to exit. |
| `Proc.ExitsAccounted` | proc.c:233-325 | At any time an exited process has been returned by wait or is a zombie, never both. |
| `History.AsleepUntilWoken` | proc.c:460-540 | After every run a process outside wait is asleep if and only if it has called sleep on some channel and neither a wakeup on that channel nor a kill of it has come since; said of the events alone. |
| `History.WaitsUntilFed` | proc.c:233-325 | After every run a process is asleep in wait if and only if it went to sleep there and since then nobody killed it, no child of it exited and, for init, no exit left it a zombie. |
| `History.RunsFromDispatch` | proc.c:344-495 | After every run exactly the processes are running that were dispatched and have not yielded, slept, waited or exited since. |
| `History.StageAsGiven` | proc.c:73-325 | After every run a slot is unused, embryo, live or zombie as the last allocproc, failed fork, completed fork, exit or reap of it says. |
| `History.ParentAsGiven` | proc.c:183-325 | After every run the parent of a slot is the process that forked it, or init once that one has exited, and none once reaped. |
| `History.PidAsGiven` | proc.c:88-90 | After every run the pids are 1 for init and then 2, 3, ... in the order of allocproc, and 0 for a reaped slot. |
| `History.KilledUntilReaped` | proc.c:284-325 | After every run exactly the slots killed since their last reap are marked. |
| `History.PrioAsGiven` | proc.c:183-228 | After every run the priority of a slot is the one last given to it, by setprio, allocproc or the parent at fork. |
| `ProcTable.Ptable.constructor` | proc.c:123-157 | The table after userinit is the machine's initial state. |
| `ProcTable.Ptable.Wakeup1` | proc.c:500-508 | The loop wakes exactly the processes asleep on the channel. |
| `ProcTable.Ptable.Wakeup` | proc.c:511-517 | Takes the machine's wakeup step and keeps the invariants. |
| `ProcTable.Ptable.AllocProc` | proc.c:73-119 | The first unused slot becomes an embryo with a new pid; fails exactly when no slot is unused. |
| `ProcTable.Ptable.Fork` | proc.c:183-228 | Succeeds exactly with memory and an unused slot, and then the first such slot is a runnable child of the caller with its priority, and with the mark that the slot had; a failure leaves every process as it was. |
| `ProcTable.Ptable.Exit` | proc.c:233-280 | Takes the machine's exit step: the loop with its nested wakeups hands over all children and wakes init if one is a zombie. |
| `ProcTable.Ptable.Adopt` | proc.c:261-268 | The loop over the table equals the reparenting done at once. |
| `ProcTable.Ptable.Wait` | proc.c:284-325 | Reaps the first zombie child, or returns -1 without children or when killed, or sleeps; each is the machine's step. |
| `ProcTable.Ptable.Sleep` | proc.c:460-495 | Takes the machine's sleep step, which by `History.AsleepUntilWoken` is asleep on that channel until a wakeup on it or a kill, and keeps the invariants. |
| `ProcTable.Ptable.Kill` | proc.c:522-540 | The machine's kill step for the first slot with the pid; fails exactly when there is none. |
| `ProcTable.Ptable.SetPrio` | proc.c:595-609 | The machine's step that sets the priority, for the first slot with the pid; fails exactly when there is none. |
| `ProcTable.BornKilled` | proc.c:522-540 | After kill(0), fork gives a child that is killed from the start. |
| `SleepWake.VersionStep` | proc.c:460-517 | Every single lock operation of sleep, wakeup and their callers keeps the relation between tested and completed changes. |
| `SleepWake.PassedStep` | proc.c:500-508 | A wakeup in progress never leaves behind it a sleeper who tested before its change. |
| `SleepWake.NoLostWakeup` | proc.c:460-517 | For any number of processes and any run: once the wakeup for a change has finished, nobody sleeps who tested before that change. |
| `SleepWake.NobodySleepsOnTrue` | sleep1.p:21-51 | Nobody sleeps on a condition that has been true since a change whose wakeup has finished. |
| `SleepWake.LocksExclude` | proc.c:460-517 | No two processes hold the same lock, in any run. |
| `SleepTable.Simulated` | proc.c:460-517 | From any state of the process table, every run of the lock-by-lock protocol by processes that run is a run of the table, and the two agree on who is asleep on the channel. |
| `SleepTable.TableLosesNoWakeup` | proc.c:460-517 | So whenever no wakeup is in progress, whoever the table has asleep on the channel tested after every change whose wakeup has finished, and found the condition false. |
| `Scheduler.QuietRound` | proc.c:370-392 | A round without a high-priority run dispatches the ready process or brings the cursor nearer to it. |
| `Scheduler.NoStarvation` | proc.c:344-394 | A normal-priority process that stays ready is dispatched within NPROC rounds in which no high-priority process ran. |
| `Scheduler.RoundRobin` | proc.c:370-392 | If all processes stay ready round k dispatches slot k, so the bound is reached. |
| `Scheduler.Cpu.HiPass` | proc.c:348-368 | Dispatches ready high-priority processes in table order, none twice, and every one that stays ready during the pass; reports a run exactly when one was ready at its start. |
| `Scheduler.Cpu.NormPass` | proc.c:370-392 | Dispatches the first ready normal-priority process from the cursor, and resets the cursor at the end of the table. |
| `Scheduler.Cpu.Round` | proc.c:344-394 | Every dispatch so far was of a ready process, a normal one only when no high-priority process was ready; the rounds recorded are what was dispatched. |
| `Files.NamedTwice` | sysfile.c:69-98 | Two descriptors naming one file hold two references. |
| `Files.MatchedClose` | file.c:56-80 | Closing a file keeps open pipe ends and the files for them in one-to-one correspondence. |
| `Files.PipePage` | pipe.c:59-75 | A pipe's page is freed once, exactly when no descriptor of any process names either end. |
| `Files.FileTable.FileAlloc` | file.c:26-41 | Takes the first free file with one reference, or fails exactly when all are in use. |
| `Files.FileTable.FileClose` | file.c:56-80 | Drops one reference; the last one frees the file and closes its end of a pipe. |
| `Files.FileTable.FdAlloc` | sysfile.c:40-53 | The lowest free descriptor, or failure exactly when all are taken. |
| `Files.FileTable.SysDup` | sysfile.c:55-67 | The lowest free descriptor names the file too; every count still equals the number of slots; fails exactly for a descriptor that is not open or without a free one, and then nothing changes. |
| `Files.FileTable.SysDup2` | sysfile.c:69-98 | The new descriptor names the old one's file; when both already did, nothing changes and the file is never let go; all counts stay right. |
| `Files.FileTable.SysClose` | sysfile.c:126-137 | Clears the slot and keeps every count equal to the number of slots. |
| `Files.FileTable.SysOpen` | sysfile.c:351-366 | The lowest free descriptor names a fresh file; fails exactly without a free file or descriptor, and then nothing changes. |
| `Files.FileTable.PipeAlloc` | pipe.c:22-57 | Two fresh files stand for the two ends of a new pipe; fails exactly without a page or two files, and then puts everything back. |
| `Files.FileTable.SysPipe` | sysfile.c:456-478 | The two lowest free descriptors for the two ends, the reading end first; fails exactly without a page, two files or two descriptors, and then files and slots are as they were and a pipe already made is freed once. |
| `Files.FileTable.ForkFiles` | proc.c:212-214 | The child's slots equal the parent's and every count grows with them. |
| `Files.FileTable.ExitFiles` | proc.c:247-252 | The process has no descriptor left, no other is touched, and all counts stay right. |
| `Pipe.WrapIndex` | pipe.c:11-20 | The ring index is the same for the wrapped counter as for the true count. |
| `Pipe.Pipe.Write` | pipe.c:78-98 | Stores a prefix of the data after what was stored before; stops exactly when the ring is full, failing exactly if the reader is gone or the writer killed; the bytes read stay a prefix of the bytes stored. |
| `Pipe.Pipe.Read` | pipe.c:100-121 | Returns the next bytes in order, as many as asked or all there are; nothing only at end of file; sleeps or fails exactly on an empty open pipe. |
| `Pipe.Pipe.Close` | pipe.c:59-75 | Frees the page exactly when the other end is already closed. |
| `RoundTrip.LexRender` | user/sh.c:274-317 | Lexing a rendering gives the tokens back. |
| `RoundTrip.LineBack` | user/sh.c:353-455 | Parsing the tokens of any describable command, whatever follows the line, gives the command and leaves what follows. |
| `RoundTrip.ParsePrint` | user/sh.c:336-455 | Parsing the canonical printing of any describable command gives that command. |
| `RoundTrip.ParserImage` | user/sh.c:336-455 | A command is the result of parsing some line if and only if it is describable: valid words, at most MAXARGS-1 arguments, the two redirection forms. |
| `Syntax.LexIs` | user/sh.c:274-317 | The lexer reads a sequence of tokens from a text if and only if the text is those tokens, `>>` among them, with white space around them, at least where two would be read as one. |
| `Syntax.CommandIs` | user/sh.c:336-455 | The parser accepts a text if and only if it is written as some syntax tree, with words and the three kinds of redirection in any order, and gives command c if and only if c is what the tree means. |
| `Syntax.OneMeaning` | user/sh.c:336-455 | A text has at most one meaning. |
| `Syntax.ArrowsAre` | user/sh.c:383-406 | What is read as a list of redirections is exactly the longest run of arrows with their files, or breaks off exactly where an arrow has none. |
| `Shell.Parser.GetToken` | user/sh.c:274-317 | Returns the kind and extent of the first token left and moves past it. |
| `Shell.Parser.Peek` | user/sh.c:319-329 | Tells whether the next token begins with one of the characters, and consumes no token. |
| `Shell.Parser.ParseRedirs` | user/sh.c:383-406 | Reads the longest run of redirections, each of `<`, `>` and `>>` with its file, mode and descriptor, in order, said of the tokens without the grammar; panics exactly if an arrow has no file. |
| `Shell.Parser.ParseExec` | user/sh.c:424-455 | Parses a simple command or block as the grammar says, with the panics for syntax and too many arguments. |
| `Shell.Parser.ParseBlock` | user/sh.c:408-422 | Parses a parenthesised line and its redirections as the grammar says. |
| `Shell.Parser.ParsePipe` | user/sh.c:370-381 | Parses a pipeline as the grammar says and ends because tokens are consumed. |
| `Shell.Parser.ParseLine` | user/sh.c:353-368 | Parses a line as the grammar says and ends because tokens are consumed. |
| `Shell.Parser.ParseCmd` | user/sh.c:336-348 | The command is what the text means: the text is written as a syntax tree of that meaning. Panics exactly if it is written as none, leftovers included. |
| `Shell.NulTerminate` | user/sh.c:458-502 | Writes NULs over delimiters only, one after every word of the command. |
| `Shell.InBufferIs` | user/sh.c:458-502 | Then every argument and file, read as a C string, equals its token. |
| `Shell.ParseBuffer` | user/sh.c:336-351 | In place on the buffer: the C strings of the resulting command are the meaning of the line; panics exactly if the line is written as no syntax tree. |
| `Shell.ParsePrinted` | user/sh.c:336-351 | On a printed command the buffer ends up holding that very command. |
| `Grep.Match` | user/grep.c:72-82 | True exactly when some substring of the text, a prefix under a leading caret, up to the end under a final dollar, is in the language of the pattern that the string writes. |
| `Grep.MatchHere` | user/grep.c:85-96 | True exactly when a substring from this position, up to the end under a final dollar, is in the language of the pattern that the string writes. |
| `Grep.MatchStar` | user/grep.c:99-106 | True exactly when some run of the starred character is followed by a match of the rest. |
| `Grep.ShowCompile` | user/grep.c:72-106 | Every string is how exactly one list of characters, stars and final dollar is written, the one by which the matcher is proved. |
| `Grep.CompileShow` | user/grep.c:72-106 | And every such list is got back from how it is written. |

## Left out

- Device drivers, console, interrupts, boot code and assembly: I/O; a context switch is a step, `iderw` a block write.
- x86 memory ordering: acquire and release are atomic.
- Inodes as shared objects (iget, iput, ilock), link counts, directories and path names: only block maps and contents are modelled.
- The T_DEV branches of readi and writei; of exec, reading the file: plumbing around what is modelled.
- System call argument fetching: descriptors and sizes arrive as parameters.
- The type, device numbers and link count of on-disk inodes; the operations work on bits as bools and inodes as records, and `DiskLayout` has their places on disk.
- The read loop of grep: only the matcher is modelled.
- runcmd and the rest of the shell after parsing; malloc failing inside the shell's constructors.
- getprio, procdump and the other reports.
- Wakeups inside pipe and log code: that a sleeper is woken in time is stated for the protocol in `SleepWake`, not for each caller; a killed pipe writer may leave without waking readers.
- Proc.RunInv: pids are unbounded, so the wrap-around of nextpid is not modelled.
- SleepTable.Simulated: for processes and one channel of callers that follow the protocol; other steps of the table may come before and not in between.
- ProcTable.Ptable.Fork: what one caller sees when nobody else touches the table; interleavings are in `Proc`.
- Uvm.PageFault: for sizes up to KERNBASE, a limit that sbrk does not check.
- Uvm.Sbrk: says what growth means only up to KERNBASE; the source does not check that limit.
- Vm.Machine.MapPages: for kernel ranges; user pages are mapped one at a time by `MapPage`, as all callers do.
- Uvm.ForkMemory: for sizes up to KERNBASE, a limit that sbrk does not check.
- Uvm.ExecMemory: the new pages hold zeros where the source loads segments and arguments; whether a segment can be read is a parameter, and arguments are given by their lengths.
- Uvm.CopyOut: a page without a page table is absent; uva2ka would follow the null pointer that walkpgdir returns.
- Uvm.UserInit: inituvm uses what kalloc returns without a test; the model stops there.
- Life.Kernel.Fork: one step of the run, as exec, exit, wait and a fault are; on other CPUs single kallocs may come in between.
- Life.Kernel.Fault: for sizes up to KERNBASE, as `Uvm.PageFault`.
- Life.Kernel.Grow: from sizes up to KERNBASE, as `Uvm.Sbrk`.
- Umalloc.Allocator.Malloc: stops at `NoGrowth`, where the source calls sbrk with a number that is not positive and goes on.
- Umalloc.Allocator.MoreCore: stops there too; addresses are unbounded and sbrk gives one at or above the break, while the sizes of the lazy sbrk can wrap.
- FileCrash.CrashKeepsWholeChunks: how bitmap and inodes are laid out in words is a parameter; `DiskLayout.EncodeLocal` is the one of the source.
- Bio.Cache.Brelse: what a caller sees when nobody comes in between; the two steps are in `BufferUsers`.
- Umalloc.Allocator.Free: the argument must be a live block, as the C library demands.
- Shell.Parser.ParseCmd: that a line is refused is said of its text; which panic message comes first is said by the grammar functions only.
- Files.FileTable.SysOpen: path lookup, offset and access modes are not modelled.
- Fs.FileSystem.WriteI: when the disk runs out of blocks the source panics; the model stops there, with a prefix of the data written.
- Fs.FileSystem.ReadI: of log_write's panics only that without an operation; the full log is in `LogRun`.
- Log.LogDevice.Commit: its cache has room for every block; the NBUF buffers are in `CommitCache`.
- Log.LogDevice.LogWrite: test and entry are one step, although the source makes the test before it takes log.lock; `LogRun.UnlockedTest` says what that can change.
- CommitCache.Commit: the header's contents are parameters, and other processes take no step meanwhile.
- Pipe.Pipe.Write: copying from user memory is a sequence argument; one call runs until it returns or sleeps.
- Scheduler.NoStarvation: about one CPU's scheduler; the other CPUs are part of the arbitrary world.
