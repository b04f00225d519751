# Models of xv6 for RISC-V, with thermal scheduling and a Peterson pipe

This project models the parts of the system whose correctness is hard to see from the code, and states what they
guarantee. Code that updates state in place is modelled by classes whose methods change the same fields in the same
order; protocols that run interleaved or are cut by crashes are modelled as step relations over whole runs.

## What is modelled

| files | part of the system |
|---|---|
| `ring.dfy`, `bio.dfy` | buffer cache on one doubly linked LRU list (`kernel/bio.c`) |
| `crash.dfy`, `loginv.dfy`, `log.dfy`, `reservation.dfy` | redo log with group commit: crashes between any two block writes, refinement of a flat block map, space reservation (`kernel/log.c`) |
| `fscrash.dfy` | the file system over the log, under crashes (`kernel/log.c`, `kernel/fs.c`) |
| `pagetable.dfy`, `vm.dfy`, `uvm.dfy`, `uvmfree.dfy`, `usercopy.dfy` | Sv39 page tables over the page allocator, and copying to and from user memory, as section 4.4 of the RISC-V Privileged Architecture v1.12 defines them (`kernel/vm.c`, `kernel/kalloc.c`, `kernel/proc.c`) |
| `bitmap.dfy`, `inodemap.dfy`, `inode.dfy`, `fileio.dfy`, `mkfs.dfy`, `roothole.dfy` | block allocator, block map, reading and writing files, and the image that starts it all (`kernel/fs.c`, `kernel/file.c`, `mkfs/mkfs.c`) |
| `dir.dfy`, `dirfile.dfy`, `links.dfy` | directories as maps and as bytes, and link counts (`kernel/fs.c`, `kernel/sysfile.c`) |
| `sched.dfy`, `thermal.dfy` | the thermal-aware scheduler (`kernel/proc.c`) |
| `sleep.dfy`, `pipe.dfy`, `peterson.dfy`, `progress.dfy`, `virtio.dfy` | sleep and wakeup, the pipe under its two-process lock and its progress, disk requests (`kernel/proc.c`, `kernel/sleeplock.c`, `kernel/pipe.c`, `kernel/virtio_disk.c`) |
| `umalloc.dfy`, `grep.dfy` | the user-level storage allocator and pattern matcher (`user/umalloc.c`, `user/grep.c`) |
| `counting.dfy`, `params.dfy`, `wrappers.dfy` | counting arguments, constants and the option type shared by several of these |

How the layers meet: the log's `Commit` and `RecoverFromLog` issue exactly the block-write sequences that the crash
model cuts at every point, and its `Read` and `LogWrite` refine a flat block map. The file operations work on such a
map; their contracts say that every block they change was logged and that the disk stays consistent. `FsCrash` joins
the two: any run of such transactions, cut anywhere, recovers to a consistent file system after a prefix of them; its
`WriteTxn`, `TruncTxn`, `LinkTxn` and `UnlinkTxn` show that the operations are such transactions. Each
`Filewrite` transaction stays within the space that `BeginOp` reserves, and the image made by mkfs satisfies the
invariant that every file operation keeps. `DirFile` runs the directory operations over the bytes of directory files.

## Where the code does not do what one might expect

- `log_write` checks for a full log before it looks for the block, so it panics on a full log even when the block is
  already logged: `Reservation.AbsorptionCanPanic` shows a run, `Reservation.PanicIff` says exactly when.
- The cache has as many buffers as the log has blocks. When every buffer is pinned by the log, `commit` finds no buffer
  for a log block and panics before writing anything: `RedoLog.LogEveryBuffer` shows a run, the contract of
  `RedoLog.Log.Commit` says exactly when.
- mkfs rounds the root directory's size up to the next block even when it is a whole number of blocks, which leaves a
  hole: `MakeFs.RoundedHole`. `fileread` starts no operation, so reading that hole panics in `log_write`. Inside an
  operation the hole is filled, but a block that goes into the inode itself is lost by a crash, because the inode is
  not written. `RootHole.ReadPastEntries` shows both, the contract of `FileIo.Readi` says exactly when. Files that are
  only written have no holes: `FileIo.Writei`, `FileIo.Filewrite`, `DirFile.WriteEntry` and `Inodes.Files.Itrunc`
  never make one.
- The scheduler's starvation bypass never changes a decision, because a process cools to zero long before it has waited
  STARVE_TICKS rounds: `Thermal.BypassNeverMatters`.
- Adding a name to a directory that has been unlinked but is still open makes link counts wrong:
  `Links.CreateInUnlinked` shows it. The contracts of `Links.FileTree.Link` and `Links.FileTree.Create` say that counts
  stay right if and only if the directory is still linked.
- grep stops at the first line of 1023 or more characters, because a full buffer makes the next read return 0, and at
  the first line with a NUL: `Grep.LongLineLost` shows it, `Grep.CompleteIff` and `Grep.CompleteForAll` say exactly
  when every matching newline-ended line is printed.
- malloc passes sizes of 2 GB and more to `sbrk`, whose argument is an int: `Malloc.NegativeRequest` shows it,
  `Malloc.AskedIff` says exactly when.

## Environment

What comes from outside is a parameter: whether a directory file can grow, what `sbrk` returns, how reads are split,
which clock ticks happen between scheduler rounds, in which order the disk completes requests, how many user bytes can
be copied. `memmove` and `memset` are whole-value assignments. Clocks, printing and locks whose only effect is that a
modelled step is atomic do not appear.

## Model

| member | source | states |
|---|---|---|
| Bio.Cache.constructor | kernel/bio.c:37-53 | all buffers are on the doubly linked list, linked the same way in both directions, and carry no real device |
| Bio.Cache.Scan | kernel/bio.c:66-73 | the forward scan finds a buffer with that identity exactly when there is one |
| Bio.Cache.Victim | kernel/bio.c:77-87 | the backward scan returns the idle buffer whose last release is the earliest among all releases made; none exactly when every buffer has a reference |
| Bio.Cache.Bget | kernel/bio.c:59-89 | the whole new buffer array for hit and recycle; the buffer recycled is the idle one whose last release is the earliest among all releases made; the "no buffers" panic exactly when the block is not cached and all buffers are busy; at most one buffer per identity on a real device, before and after |
| Bio.Cache.Bread | kernel/bio.c:93-103 | the locked buffer holds the cached contents if valid, the disk's otherwise; no other buffer changes |
| Bio.Cache.Bwrite | kernel/bio.c:107-112 | one atomic block write, recorded in the write history whose replay is the disk |
| Bio.Cache.Brelse | kernel/bio.c:117-137 | a buffer left idle goes to the front of the list, the others keep their order, and the release is recorded last; otherwise the list and the record stay |
| Bio.Cache.ToFront | kernel/bio.c:126-133 | one buffer goes to the front, the others keep their order, and the list stays linked and sorted by last release |
| Bio.InFront | kernel/bio.c:126-133 | putting a buffer at the front keeps a list sorted by last use |
| Bio.Cache.Bpin | kernel/bio.c:140-144 | one more reference, nothing else |
| Bio.Cache.Bunpin | kernel/bio.c:147-151 | one reference less on a buffer that keeps one for its holder |
| Bio.MoveToFrontKeepsList | kernel/bio.c:128-133 | the six pointer assignments of the release keep the list linked both ways, complete and sorted by recency |
| Ring.UnlinkKeepsLinked | kernel/bio.c:128-129 | the two unlinking assignments remove exactly one buffer from the circular list |
| Ring.PushKeepsLinked | kernel/bio.c:130-133 | the four linking assignments put exactly one buffer at the front |
| LogInv.ReadKeeps | kernel/bio.c:93-103 | a block read through cache and disk shows its flat contents, cached or not, logged or not |
| LogInv.ReleaseKeeps | kernel/bio.c:117-137 | releasing a buffer whose changes were logged loses nothing: every logged block stays pinned in the cache |
| LogInv.ModifyKeeps | kernel/log.c:206-214 | a holder may change its locked buffer without disturbing any other block |
| LogInv.LogNewKeeps | kernel/log.c:226-234 | logging a new block makes the buffer's data the flat contents and pins the buffer |
| LogInv.LogAgainKeeps | kernel/log.c:226-230 | absorbing a logged block again makes the newer data the flat contents |
| LogInv.WriteKeeps | kernel/bio.c:107-112 | a block write makes disk and flat contents agree on that block |
| LogInv.UnpinKeeps | kernel/log.c:79-80 | unpinning an installed block keeps cache, disk and flat contents in agreement |
| RedoLog.Log.constructor | kernel/log.c:54-63 | on a fresh cache the flat contents are the disk |
| RedoLog.Log.Read | kernel/bio.c:93-103 | every read returns the last contents given to that block |
| RedoLog.Log.Modify | kernel/log.c:206-214 | a client changes a buffer it holds; the block map follows when the change is logged |
| RedoLog.Log.Release | kernel/bio.c:117-137 | the release keeps the refinement of the flat block map |
| RedoLog.Log.Slot | kernel/log.c:226-229 | the scan finds the block's slot, or shows that it is not logged |
| RedoLog.Log.LogWrite | kernel/log.c:216-236 | succeeds exactly when the log has room and an operation is active; the flat contents get the buffer's data, and the block is appended to the log once |
| RedoLog.Log.WriteLogOne | kernel/log.c:185-190 | one log block gets the cached contents of its home block; fails exactly when no buffer is left for the log block |
| RedoLog.Log.WriteLog | kernel/log.c:180-192 | the block writes are the transaction's data to consecutive log blocks, in order, and nothing at home changes |
| RedoLog.Log.WriteHead | kernel/log.c:104-115 | one header write with count and block list; home blocks unchanged |
| RedoLog.Log.InstallOne | kernel/log.c:75-82 | one log block goes home; outside recovery its pin is dropped and the flat contents stay |
| RedoLog.Log.InstallTrans | kernel/log.c:67-84 | the log blocks go home in order; the flat contents are the replay of those writes |
| RedoLog.Log.MakeDurable | kernel/log.c:198-199 | log blocks first, then the header; any failure leaves a prefix of those writes |
| RedoLog.Log.InstallAndClear | kernel/log.c:200-202 | installs the transaction, then erases it from the log; the flat home contents stay |
| RedoLog.Log.Commit | kernel/log.c:195-204 | its block writes are exactly, and in order, those of the crash model; flat home contents unchanged; with no references but the log's pins it succeeds exactly when nothing is logged or fewer blocks are logged than there are buffers, and otherwise fails before the first write |
| RedoLog.FullCacheIff | kernel/log.c:184-186 | when only the log holds references, every buffer is busy exactly when as many blocks are logged as there are buffers, and then no buffer can take a log block |
| RedoLog.LogBlock | kernel/log.c:206-236 | read, log and release of a block not logged yet leave one more pin and no lock |
| RedoLog.LogEveryBuffer | kernel/log.c:148-204 | counterexample: from a fresh cache, three operations that log as many blocks as there are buffers, each at most MAXOPBLOCKS if there are LOGBLOCKS buffers, end in a commit that fails before it writes anything |
| RedoLog.ThreeOperations | kernel/log.c:126-143 | three operations start on an empty log and each logs its third of the blocks |
| RedoLog.Log.ReadHead | kernel/log.c:88-98 | the in-memory header is the one on disk |
| RedoLog.Log.RecoverFromLog | kernel/log.c:118-124 | its block writes are exactly, and in order, those of the crash model, and the log ends empty |
| RedoLog.Log.BeginOp | kernel/log.c:128-143 | an operation starts exactly when no commit runs and the log has room for one more full reservation |
| RedoLog.Log.EndOp | kernel/log.c:148-176 | the last operation commits everything logged; an earlier one writes nothing |
| Crash.PutHead | kernel/log.c:104-115 | the header block after a header write: count, block list, rest unchanged |
| Crash.LogWritten | kernel/log.c:184-191 | after write_log the t-th log block holds the t-th update |
| Crash.RedoIdempotent | kernel/log.c:71-83 | installing again after any prefix of an installation gives the same disk as installing once |
| Crash.RecoveredHome | kernel/log.c:118-124 | recovery leaves the pending updates at home and an empty log |
| Crash.RecoveryIsIdempotent | kernel/log.c:118-124 | recovery cut short after any number of its writes recovers to the same home blocks |
| Crash.HeaderCommits | kernel/log.c:180-192 | once log blocks and header are written, what the header on disk says is pending is exactly the transaction, and home blocks are as before |
| Crash.CommitEndsLikeRecovery | kernel/log.c:199-202 | after its header write, a commit does the writes recovery would do |
| Crash.CommitIsAtomic | kernel/log.c:195-204 | a commit stopped anywhere recovers to the old home blocks before the header write and to the new ones from it on |
| Crash.StepKeepsPromise | kernel/log.c:118-204 | one commit or boot, stopped anywhere, moves the recoverable state by exactly the transaction it made durable |
| Crash.CrashAtomicity | kernel/log.c:66-204 | over every run of commits and boots with crashes between any two block writes: recovering now gives the initial file system plus exactly the commits whose header write finished, in order |
| RedoLog.GroupReplays | kernel/log.c:184-191 | installing the group gives each logged block its flat contents and touches no other block |
| RedoLog.CrashDuringCommit | kernel/log.c:195-204 | a crash between any two block writes of a commit recovers to the last committed home blocks or to everything clients were reading, nothing in between |
| FsCrash.InodeRoundTrip | kernel/fs.c:227-242 | size and addresses of an inode written into the 64 bytes of its slot are there |
| FsCrash.InodeLayout | kernel/fs.h:32-39 | the size is in word 2 of the 64 bytes and the thirteen addresses from word 3 on |
| FsCrash.OneInode | kernel/fs.h:32-39 | a slot of an inode block holds one inode only |
| FsCrash.WrittenHolds | kernel/log.c:184-191 | writing exactly the logged blocks of a transaction takes the disk image from the file system before to the file system after |
| FsCrash.UpdatesApply | kernel/log.c:71-83 | installing a transaction's logged blocks on the old image gives the new image |
| FsCrash.StepRecovers | kernel/log.c:118-204 | one commit or boot, stopped anywhere, moves the recoverable file system by the whole transaction or not at all |
| FsCrash.CrashConsistency | kernel/log.c:66-204 | over every run of transactions and boots with crashes between any two block writes: recovery finds a consistent file system, the one after exactly the transactions whose header write finished |
| FsCrash.LogsTrans | kernel/log.c:126-176 | operations in one group together log every block that any of them changed |
| FsCrash.OpIsTxn | kernel/file.c:160-165 | an operation that logged every block it changed, none of them in the log, and left the disk consistent, is one that the log makes atomic |
| FsCrash.WriteTxn | kernel/file.c:160-165 | every transaction of filewrite is one that the log makes atomic, and leaves the file system mounted |
| FsCrash.TruncTxn | kernel/sysfile.c:317-368 | so is the truncation of a file |
| FsCrash.LinkTxn | kernel/sysfile.c:132-159 | so is dirlink into a directory without holes |
| FsCrash.UnlinkTxn | kernel/sysfile.c:199-235 | so is the clearing of a directory entry |
| Reservation.ReservationHolds | kernel/log.c:127-176 | in every interleaving, logged blocks plus unused reservations fit the log, a commit runs only with no active operation, and logged block numbers are distinct |
| Reservation.PanicIff | kernel/log.c:221-222 | in a reachable state log_write's size panic is possible exactly when the log is full, and then every active operation has used its whole reservation |
| Reservation.Drains | kernel/log.c:127-176 | from every reachable state the active operations can end and the log can be emptied, after which an operation can begin |
| Reservation.AbsorptionCanPanic | kernel/log.c:221-229 | counterexample: operations within their budgets reach a full log in which even absorbing a logged block panics |
| Sched.NewTemp | kernel/proc.c:42-57 | idle: two degrees less above 50, one less down to 20; running: one to four degrees more by heat; within 20..100 |
| Sched.Scheduler.UpdateCpuTemp | kernel/proc.c:42-57 | the in-place update has exactly these steps at every temperature and heat |
| Sched.Scheduler.Decay | kernel/proc.c:691-700 | every RUNNABLE or SLEEPING process cools by HEAT_DECAY, not below zero; nothing else changes |
| Sched.Scheduler.PassA | kernel/proc.c:732-766 | the least PID among ungated test children, first in the table among equals; none exactly when there is none |
| Sched.Scheduler.PassB | kernel/proc.c:771-797 | the least heat among ungated RUNNABLE processes, first in the table; relies on heat never exceeding MAX_HEAT |
| Sched.Scheduler.PassC | kernel/proc.c:802-812 | the first RUNNABLE process, if any |
| Sched.Scheduler.Select | kernel/proc.c:732-812 | the three passes together meet the declarative selection rule |
| Sched.Scheduler.Age | kernel/proc.c:819-825 | exactly the RUNNABLE processes not chosen have waited one round more |
| Sched.Scheduler.RunRound | kernel/proc.c:655-878 | one whole round refines the step relation the run properties are about |
| Sched.DispatchRule | kernel/proc.c:732-812 | of two RUNNABLE processes the one that runs is gated only if the other is and comes later; among ungated ones a test child goes first, then the lower PID, and otherwise the cooler, all in the source's numbers |
| Sched.RoundEffect | kernel/proc.c:691-871 | what a round does to each process and to the temperature, in the source's numbers, and when it throttles or idles |
| Thermal.IdleTicksExact | kernel/proc.c:42-57 | any number of idle ticks in closed form: two degrees a tick down to 50, then one a tick, down to 20 |
| Thermal.TempAfterRound | kernel/proc.c:706-713 | the temperature stays within 20..94 across a round and the tick after it, and a throttled round cools by two |
| Thermal.HeatAfterRound | kernel/proc.c:859-865 | a round keeps heat even, capped, and at most 100 minus twice the rounds waited |
| Thermal.InvHolds | kernel/proc.c:691-871 | temperature 20..94 and the heat/wait invariant at the start of every round of every run |
| Thermal.AtMostSixThrottled | kernel/proc.c:706-713 | from any clamped temperature at most six rounds in a row are throttled |
| Thermal.AtMostThreeThrottled | kernel/proc.c:706-713 | from boot at most three rounds in a row are throttled |
| Thermal.BypassNeverMatters | kernel/proc.c:737-742 | in every reachable state the gate decides the same with and without the STARVE_TICKS bypass |
| Thermal.RunsWhenPossible | kernel/proc.c:732-812 | an unthrottled round runs a process exactly when one is RUNNABLE, and a gated one only if all are gated |
| Thermal.PassedOver | kernel/proc.c:737-765 | the first test child is passed over only while hot, and cools by two each time |
| Thermal.DispatchedWithin39 | kernel/proc.c:732-766 | a process that stays the lowest-PID RUNNABLE test child runs within 39 rounds |
| SleepWakeup.StepKeepsProc | kernel/proc.c:959-1003 | whoever takes whatever step, a process that decided to sleep still sees a false condition or has a waker on its way |
| SleepWakeup.WakerComes | kernel/proc.c:990-1003 | a waker on its way to a process stays on its way until it has woken it |
| SleepWakeup.NoLostWakeup | kernel/proc.c:959-1003 | in every run: if the condition holds and no waker is between its change and the end of its scan, nobody sleeps on the channel |
| SleepWakeup.NoDeadlock | kernel/proc.c:959-1003 | in every reachable state in which a call is going on, some call can go on |
| SleepWakeup.ScanEnds | kernel/proc.c:990-1003 | every scan can be brought to its end, whatever the others were doing, with the condition as it was |
| SleepWakeup.WakeupWakes | kernel/proc.c:990-1003 | a wakeup after the condition became true can be completed, and then nobody sleeps |
| SleepWakeup.AtMostOneHolder | kernel/sleeplock.c:22-41 | in every run a sleep lock has at most one holder and is marked free exactly when it has none |
| PipeRing.FullIff | kernel/pipe.c:109-109 | the full and empty tests are exact under 32-bit wrap-around |
| PipeRing.PutAppends | kernel/pipe.c:116-116 | storing a byte appends it to the unread bytes |
| PipeRing.TakeRemoves | kernel/pipe.c:142-150 | taking a byte removes the first unread one |
| PipeRing.Pipe.PipeWrite | kernel/pipe.c:104-123 | the bytes taken before it would block, fail or end are appended in order |
| PipeRing.Pipe.PipeRead | kernel/pipe.c:141-154 | returns and removes the longest possible prefix of the unread bytes |
| Peterson.LockStepKeeps | kernel/pipe.c:66-95 | each atomic access of entry, exit and kfree keeps the lock's invariant |
| Peterson.CritStepKeeps | kernel/pipe.c:79-151 | each atomic access inside the critical section, those of pipeclose included, keeps the lock's invariant |
| Peterson.StoreKeeps | kernel/pipe.c:116-116 | storing a byte at the free slot, before or after the counter moves, changes no unread byte |
| Peterson.WriterStep | kernel/pipe.c:104-117 | with the reader excluded, a byte half put in is invisible and then appended whole, whichever of increment and store comes first |
| Peterson.ReaderStep | kernel/pipe.c:141-151 | with the writer excluded, the byte loaded, copied out and stepped over is the first unread one |
| Peterson.MutualExclusion | kernel/pipe.c:66-76 | in every interleaving the two sides are never in the critical section together |
| Peterson.NeverBothStuck | kernel/pipe.c:66-71 | the two sides are never both stuck in the busy wait; a stuck side has a competing peer |
| Progress.EntersWithinTwo | kernel/pipe.c:66-71 | a waiting side whose wait condition does not hold can step, and is inside after at most two of its own steps, at the first access of its call |
| Progress.StuckWaits | kernel/pipe.c:70-70 | while the wait condition holds, the side's own steps do not take it in |
| Progress.OneEnters | kernel/pipe.c:66-71 | in every run, when both sides wait, one of them is inside after at most two of its own steps |
| Progress.EntersAlone | kernel/pipe.c:66-71 | a side whose peer is outside is inside after three steps of its own |
| Progress.AtMostOneBypass | kernel/pipe.c:66-76 | in every run, while a side waits its peer enters the critical section at most once |
| Progress.WriterPuts | kernel/pipe.c:104-117 | with room and the read end open, a writer's next six steps put its byte in |
| Progress.ReaderTakes | kernel/pipe.c:141-151 | with a byte in the pipe, a reader's next six steps take the oldest one |
| Progress.CloseEnds | kernel/pipe.c:79-95 | a close that has entered is over after at most five steps, and frees the pipe exactly if the other end was closed |
| Peterson.FirstInFirstOut | kernel/pipe.c:104-151 | with every counter and data access a step of its own, bytes read are always a prefix of bytes written, at most PIPESIZE behind |
| Peterson.FreedOnceThenUntouched | kernel/pipe.c:79-95 | the page is freed at most once, only after both ends closed, and no step follows |
| Virtio.PushEntry | kernel/virtio_disk.c:272-277 | a new ring entry overwrites none that is still to be read, under 16-bit wrap-around |
| Virtio.PopEntry | kernel/virtio_disk.c:312-323 | the reader gets exactly the oldest unread entry, and sees an empty ring exactly when there is none |
| Virtio.AddChain | kernel/virtio_disk.c:247-265 | three free descriptors become one properly laid out chain; every other chain is untouched |
| Virtio.DropChain | kernel/virtio_disk.c:186-197 | giving a chain back frees exactly its three descriptors |
| Virtio.AtMostTwo | kernel/virtio_disk.c:202-213 | at most two requests are in flight |
| Virtio.Disk.constructor | kernel/virtio_disk.c:62-150 | all descriptors free, both rings empty |
| Virtio.Disk.AllocDesc | kernel/virtio_disk.c:157-166 | the lowest free descriptor; -1 exactly when there is none |
| Virtio.Disk.FreeDesc | kernel/virtio_disk.c:170-182 | one descriptor cleared and marked free |
| Virtio.Disk.Alloc3Desc | kernel/virtio_disk.c:202-213 | three distinct free descriptors, or none taken and fewer than three free |
| Virtio.Disk.GiveBack | kernel/virtio_disk.c:207-208 | the rollback restores the free map exactly |
| Virtio.Disk.Submit | kernel/virtio_disk.c:216-281 | one new request for the buffer, block and direction given, offered last at the next ring index; otherwise nothing changes and fewer than three descriptors are free |
| Virtio.Disk.Offer | kernel/virtio_disk.c:238-277 | formatting and offering keep every descriptor free or in exactly one chain, and every request in exactly one place |
| Virtio.Disk.DeviceTake | kernel/virtio_disk.c:271-277 | the device takes the oldest offered request and finds its chain laid out |
| Virtio.Disk.DeviceComplete | kernel/virtio_disk.c:309-316 | any taken request may complete, in any order, without losing another; the device, following the chain and its command header, moves exactly that buffer to or from exactly that block |
| Virtio.Disk.Format | kernel/virtio_disk.c:238-269 | the command header with direction and sector, the three descriptors with lengths, directions and links, and the driver's note |
| Virtio.Disk.WalkChain | kernel/virtio_disk.c:238-265 | a device that walks a properly laid out chain carries the request out and reports success in its status byte |
| Virtio.WriteThenRead | kernel/virtio_disk.c:216-290 | a block written is read back into any buffer; no other block or buffer is touched |
| Virtio.Disk.IntrOne | kernel/virtio_disk.c:313-323 | exactly the issuing buffer is released, and its status is success |
| Virtio.Disk.Intr | kernel/virtio_disk.c:295-327 | every completion in the used ring is handled exactly once, also those the device adds meanwhile, whose transfers happen in that order |
| Virtio.Disk.FreeChain | kernel/virtio_disk.c:186-197 | the walk frees exactly the three descriptors of the chain and stops |
| Virtio.Disk.Finish | kernel/virtio_disk.c:283-289 | the issuer gives its descriptors back only after its request finished |
| PageTable.PagePartition | kernel/kalloc.c:47-82 | no page is two of free, page table and user frame; no frame is owned by two mappings, in one address space or in two |
| PageTable.LocalChange | kernel/vm.c:98-212 | a change confined to one address space keeps the whole-memory invariant |
| PageTable.AllocKeeps | kernel/kalloc.c:69-82 | allocation keeps the whole-memory invariant |
| PageTable.FreeKeeps | kernel/kalloc.c:47-63 | freeing a held page keeps the whole-memory invariant, and the page was not on the list |
| PageTable.AddMid | kernel/vm.c:104-113 | a fresh zeroed level-1 table changes no translation |
| PageTable.AddLow | kernel/vm.c:104-113 | a fresh zeroed level-0 table changes no translation |
| PageTable.WriteLevel0 | kernel/riscv.h:371-380 | distinct virtual pages never share a leaf slot: one entry written changes one translation |
| PageTable.WriteLeaf | kernel/vm.c:163-167 | writing one leaf entry changes exactly that translation and keeps the whole-memory invariant |
| PageTable.Detach | kernel/vm.c:263-278 | an address space taken out of the system leaves its pages held and everything else as it was |
| Vm.PxIndices | kernel/riscv.h:371-380 | the three 9-bit indices are the digits of the virtual page number |
| Vm.Memory.constructor | kernel/kalloc.c:27-40 | every whole page above the kernel image is free, every other page is the kernel's |
| Vm.Memory.Kalloc | kernel/kalloc.c:69-82 | the head of the free list, filled with junk; nothing exactly when the list is empty |
| Vm.Memory.Kfree | kernel/kalloc.c:47-63 | a held page goes to the front of the list, filled with junk |
| Vm.Memory.Descend | kernel/vm.c:103-113 | one level down: the table below, allocated if asked; failure only when memory is out or the table is absent |
| Vm.Memory.Walk | kernel/vm.c:98-115 | the leaf slot of the address; no translation changes, and without alloc nothing changes |
| Vm.Memory.MapOne | kernel/vm.c:163-167 | adds exactly one translation, with the permission bits asked for and no other, or none; new tables serve that page only |
| Vm.Memory.Mappages | kernel/vm.c:146-174 | adds exactly its range, with the permission bits asked for and no other; on failure exactly a prefix of it, and memory is out; every other translation is unchanged, and new tables serve the range only |
| Vm.CarriedBits | kernel/vm.c:167-167 | an entry for a page and a permission is valid, names the page, and has R, W, X and U exactly as asked |
| Vm.Memory.UnmapOne | kernel/vm.c:202-210 | removes exactly one translation, mapped or not, and frees its frame if asked |
| Vm.Memory.Uvmunmap | kernel/vm.c:193-212 | removes exactly its range and frees exactly its frames if asked, so frames free and mapped stay as many; every other translation and page is unchanged |
| UserVm.AddPage | kernel/vm.c:227-237 | one fresh page mapped and filled as given, with the permission bits asked for and no other, or every translation and every user page as before and at most one page left free |
| UserVm.GrewByMore | kernel/vm.c:226-238 | two growths compose to the growth by both sets of pages |
| UserVm.Uvmdealloc | kernel/vm.c:247-258 | exactly the pages between the two sizes go, and the free list gains as many |
| UserVm.Uvmalloc | kernel/vm.c:217-240 | a zeroed page of its own for every page up to the new size, readable by the user and writable or executable exactly if asked, or every translation and owned frame as before; it fails only with no more pages free than were asked for |
| UserVm.GrowPage | kernel/vm.c:227-238 | one page more, or the rollback |
| UserVm.NewPermits | kernel/vm.c:233-233 | every page a growth added can be read by the user, and written or executed exactly if that was asked for |
| UserVm.Rollback | kernel/vm.c:228-236 | the error exit restores every translation and frees every page it had added |
| UserVm.Restored | kernel/vm.c:321-323 | growing, failing and unmapping restores translations, frames and contents; only empty tables may remain |
| UserVm.Uvmcopy | kernel/vm.c:297-324 | a fresh page with equal flags and contents for every page of the parent, or the child as before; it fails only with no more pages free than the parent has; the parent is not touched |
| UserVm.CopyPage | kernel/vm.c:304-323 | one page copied, an unmapped page skipped, or the rollback |
| UserVm.UncopyPages | kernel/vm.c:321-323 | the error exit restores the child and frees every page it had been given |
| FreeVm.NodeEntry | kernel/vm.c:266-276 | with no translations left, every valid entry is a lower table and never a leaf |
| FreeVm.FreeWalk | kernel/vm.c:263-278 | frees exactly the tables of the subtree, each once, and never reaches the leaf panic |
| FreeVm.Uvmfree | kernel/vm.c:283-288 | every page the address space owned is free, every other page and address space as before |
| FreeVm.Uvmcreate | kernel/vm.c:179-187 | a new empty address space on a page that was free |
| FreeVm.CreatedGone | kernel/proc.c:231-243 | an address space created and freed again leaks no page |
| FreeVm.ProcPagetable | kernel/proc.c:218-247 | exactly trampoline and trapframe are mapped, the user can reach neither, the trampoline is executable and not writable, the trapframe writable and not executable; or every page is back where it was |
| FreeVm.ProcFreepagetable | kernel/proc.c:252-257 | frees what the process owned, not the trampoline or trapframe pages |
| FreeVm.Vmfault | kernel/vm.c:453-473 | a missing page below the size gets a fresh zeroed page, readable and writable by the user and not executable, which is returned; an address beyond the size or already mapped changes nothing; any other failure means at most one page is free |
| UserCopy.PatchedBytes | kernel/vm.c:365-368 | memmove into a page changes exactly its bytes |
| UserCopy.FaultKeeps | kernel/vm.c:453-473 | faulting a page in changes no byte the process sees and no other address space |
| UserCopy.Walkaddr | kernel/vm.c:121-138 | the page behind an address mapped for the user, none exactly when there is none; nothing changes |
| UserCopy.PageFor | kernel/vm.c:353-358 | the page of an address, mapped or faulted in; a usable address fails only with at most one page free |
| UserCopy.Copyin | kernel/vm.c:381-403 | exactly the bytes the process sees, across pages; only usable addresses succeed, mapped ones always do, and others fail only with at most one page free; no byte changes, and only pages of the range are faulted in |
| UserCopy.UserWriteKeeps | kernel/vm.c:368-368 | a write into a user page keeps the whole-memory invariant and every other page |
| UserCopy.CopyPage | kernel/vm.c:349-368 | one turn of copyout's loop: those bytes or none, never on a read-only page; on a usable one it fails only with at most one page free |
| UserCopy.PutBytes | kernel/vm.c:365-368 | exactly these bytes of one page change, and the whole-memory invariant stays |
| UserCopy.Copyout | kernel/vm.c:343-375 | exactly these bytes of this address space change; a failed copy stops on a page boundary; writable ranges always succeed, and usable ones without a read-only page fail only with at most one page free; only pages of the range are faulted in |
| UserCopy.Copyinstr | kernel/vm.c:410-446 | succeeds exactly when a string ends within the limit on pages mapped for the user, and returns it |
| UserCopy.RoundTrip | kernel/vm.c:343-403 | what was copied out is copied in again: the second copy succeeds exactly when the first did |
| InodeMap.WordRoundTrip | kernel/fs.c:431-436 | a 32-bit entry written into an indirect block is read back and leaves the others alone |
| InodeMap.LocalChange | kernel/fs.c:406-476 | a change confined to one file keeps the ownership invariant and every other file's bytes |
| InodeMap.OutsideChange | kernel/fs.c:67-106 | a change to metadata and unused blocks keeps every file |
| InodeMap.LinkDirect | kernel/fs.c:411-418 | filling a missing direct address with a zeroed block changes no byte of any file |
| InodeMap.LinkIndirect | kernel/fs.c:424-429 | a zeroed indirect block maps nothing and changes no byte |
| InodeMap.LinkEntry | kernel/fs.c:430-438 | filling a missing indirect entry changes no byte of any file |
| InodeMap.WriteData | kernel/fs.c:541-549 | overwriting a data block changes those bytes of that file and nothing else |
| InodeMap.DetachKeeps | kernel/fs.c:449-476 | a file taken apart leaves every other file as it was |
| Bitmap.BitAfterSet | kernel/fs.c:76-78 | setting one bit sets that bit only |
| Bitmap.BitAfterClear | kernel/fs.c:100-103 | clearing one bit clears that bit only |
| Bitmap.BitIsDigit | kernel/fs.c:76-77 | the bit tested is the binary digit, and a byte with that bit alone is 1 shifted to it |
| Bitmap.MarkOne | kernel/fs.c:74-78 | one bit of one byte of one bitmap block marks exactly one block |
| Bitmap.ClearOne | kernel/fs.c:98-103 | one bit of one byte of one bitmap block unmarks exactly one block |
| Inodes.Files.constructor | kernel/fs.c:42-48 | a consistent disk is a consistent file store |
| Inodes.Files.MarkAndZero | kernel/fs.c:76-82 | the block is marked and zeroed; no file's bytes change; the two changed blocks are logged |
| Inodes.Files.Balloc | kernel/fs.c:67-89 | the first free block; 0 exactly when no block is free; the log_write panic exactly when a block is free and no operation is active; every changed block is logged |
| Inodes.Files.Bfree | kernel/fs.c:93-106 | exactly one block becomes unused, the panic on a free block is not reached, and every changed block is logged |
| Inodes.Files.BmapDirect | kernel/fs.c:411-418 | the direct block, allocated if missing |
| Inodes.Files.IndirectBlock | kernel/fs.c:423-429 | the indirect block, allocated if missing, with every mapping unchanged |
| Inodes.Files.BmapEntry | kernel/fs.c:430-440 | the indirectly mapped block, allocated if missing |
| Inodes.Files.Bmap | kernel/fs.c:406-444 | the block of that index, 0 exactly on a full disk, a panic exactly when it must allocate outside an operation; no byte of any file changes, no block moves; every changed block is logged, and only the bitmap, the indirect block and the block itself are; the inode changes exactly when the block goes into it |
| Inodes.Files.Iupdate | kernel/fs.c:227-242 | the inode on disk equals the one in memory |
| Inodes.Files.FreeDirect | kernel/fs.c:455-460 | frees exactly the direct blocks |
| Inodes.Files.FreeEntries | kernel/fs.c:463-468 | frees exactly the indirectly mapped blocks |
| Inodes.Files.Itrunc | kernel/fs.c:449-476 | frees exactly the blocks of the file, each once; every other file keeps its bytes and blocks; every changed block is logged, and only bitmap blocks and the inode block are; a consistent disk stays consistent |
| Inodes.BlockAccounting | kernel/fs.c:67-106 | the marked bits are exactly metadata and blocks reachable from inodes, and no block is reachable in two ways |
| Inodes.LostBlock | kernel/fs.c:411-429 | a block that an inode has in memory but not on disk is marked and reachable from no inode on disk |
| Inodes.CopiesAgree | kernel/fs.c:227-242 | on a consistent disk the inodes on disk and in memory have the same blocks |
| Inodes.DiskOkIff | kernel/fs.c:227-242 | between operations the disk by itself is a consistent file system exactly when its inodes are those in memory |
| InodeMap.OthersNoHoles | kernel/fs.c:529-562 | a change confined to one file makes no hole in any other |
| FileIo.WroteBlock | kernel/fs.c:541-549 | patching one block across any offset is writing those bytes of the file |
| FileIo.WriteBlocks | kernel/fs.c:539-551 | the loop writes a prefix of the bytes, all of it unless it meets a hole on a full disk |
| FileIo.Writei | kernel/fs.c:529-562 | -1 exactly for a bad range; otherwise changes only the bytes written, size becomes the maximum, stops early only at a hole on a full disk and then on a block boundary; every changed block is logged, within the bound; files without holes stay without holes; a consistent disk stays consistent |
| FileIo.FileAfterWrite | kernel/fs.c:529-562 | the file afterwards is the old byte sequence overwritten at the offset |
| FileIo.Readi | kernel/fs.c:495-519 | the clipped slice of the file; outside an operation nothing changes and it panics exactly when it meets a hole while a block is free; inside one holes are filled, and the disk stays consistent exactly unless it meets, with a block free, a direct hole or an indirect one without an indirect block |
| FileIo.ReadBlocks | kernel/fs.c:505-517 | the loop of readi, with the same exact conditions |
| FileIo.FirstHole | kernel/fs.c:411-429 | of the holes in a range the first decides whether one goes into the inode |
| FileIo.Fileread | kernel/file.c:120-124 | on a file without holes exactly the bytes at the offset, and no change; the panic is possible only at a hole, since no operation is started |
| FileIo.ChunkLogs | kernel/file.c:150-154 | with one bitmap block, a chunk logs at most seven distinct blocks, within the reservation |
| FileIo.WriteChunk | kernel/file.c:160-165 | one transaction: every block it changes is among those it logged, at most seven, all of them inode block, bitmap or data |
| FileIo.TruncOp | kernel/sysfile.c:317-368 | a transaction that truncates a file logs every block it changes: the inode block and bitmap blocks, two on a disk with one bitmap block; a consistent disk stays consistent |
| FileIo.Filewrite | kernel/file.c:149-172 | the offset advances by exactly the bytes written and the file has them; its transactions lead step by step from the disk before to the disk after, each logging every block it changed, at most seven, and leaving a consistent disk |
| MakeFs.Image.constructor | mkfs/mkfs.c:92-115 | a zeroed image in which only metadata is in use, with a superblock that says where everything is |
| MakeFs.SuperBlockWords | mkfs/mkfs.c:96-114 | the eight words of the superblock read back as written |
| MakeFs.Image.BlockFor | mkfs/mkfs.c:268-285 | the block of that index, handed out in order if missing; no byte of any file changes |
| MakeFs.Image.Iappend | mkfs/mkfs.c:255-296 | the file is the old one followed by the bytes; every other file and the metadata as before; fails only for a full image or a file too long, and takes no more blocks than it may |
| MakeFs.Image.Ialloc | mkfs/mkfs.c:223-234 | inode numbers in order |
| MakeFs.Image.CopyFile | mkfs/mkfs.c:159-160 | however the reads are split, the file gets their concatenation |
| MakeFs.Image.AddFile | mkfs/mkfs.c:130-163 | one file: its entry at the end of the root directory, its contents in the next inode, every other file as before |
| MakeFs.Image.AddFiles | mkfs/mkfs.c:130-163 | each file holds its input and the root directory holds the entries in order |
| MakeFs.Image.MarkUsed | mkfs/mkfs.c:237-250 | the bitmap marks exactly the blocks handed out |
| MakeFs.Image.Build | mkfs/mkfs.c:117-172 | the finished image satisfies the block-ownership invariant, holds the files, keeps the superblock, and every file but the root is hole-free; it succeeds whenever there is room |
| MakeFs.RoundedHole | mkfs/mkfs.c:165-170 | rounding the root size leaves a hole exactly when the entries end on a block boundary, and exactly behind them |
| MakeFs.Built | mkfs/mkfs.c:165-172 | the root directory holds its entries and zeros up to the rounded size |
| RootHole.ReadPastEntries | mkfs/mkfs.c:165-170 | counterexample: on an image with 62 files, reading the next entry of the root panics outside an operation and leaves an inconsistent disk inside one |
| Malloc.Insert | user/umalloc.c:33-43 | linking a freed block at its place keeps the address-ordered cycle and the tiling of the heap by blocks |
| Malloc.Join | user/umalloc.c:33-42 | two touching free blocks become one |
| Malloc.SpotTest | user/umalloc.c:30-32 | the loop's two tests hold together exactly at the block's place in the cycle |
| Malloc.TakeWhole | user/umalloc.c:76-77 | an exact fit leaves the list; no two free blocks touch |
| Malloc.TakeTail | user/umalloc.c:78-82 | the tail of a larger block becomes a block of its own |
| Malloc.NewRegion | user/umalloc.c:52-57 | memory from the system is one more block |
| Malloc.Heap.constructor | user/umalloc.c:21-22 | an empty heap |
| Malloc.Heap.FindSpot | user/umalloc.c:30-32 | the search ends at the two free blocks around the freed one |
| Malloc.Heap.Free | user/umalloc.c:25-44 | the block's units are in one free block, no two free blocks touch, every other live block is untouched, no unit is gained or lost, and freep is the block below |
| Malloc.Heap.JoinUpper | user/umalloc.c:33-37 | the freed block takes in the block above exactly when they touch |
| Malloc.Heap.JoinLower | user/umalloc.c:38-42 | the block below takes in the freed block exactly when they touch |
| Malloc.Heap.Morecore | user/umalloc.c:47-61 | the heap gains exactly the granted units and some free block fits, or nothing changes |
| Malloc.Heap.Initialise | user/umalloc.c:70-73 | the list with the empty base block alone |
| Malloc.Heap.Take | user/umalloc.c:75-84 | the units at the end of the block become live |
| Malloc.Heap.Malloc | user/umalloc.c:64-90 | a block of its own with room for the request, cut from the first block behind freep that fits; nothing only if sbrk refuses and no block fits; memory is obtained only if nothing fitted; the search ends |
| Malloc.AskedIff | user/umalloc.c:52-54 | the int argument of sbrk is the size wanted exactly below 2 GB, and negative exactly from there to 4 GB |
| Malloc.NegativeRequest | user/umalloc.c:52-54 | counterexample: a request of 0x7FFFFFF0 bytes asks sbrk for -0x80000000; every request up to 0x7FFFFFE0 is passed on right and the next is negative |
| Malloc.HeapLayout | user/umalloc.c:25-90 | blocks, free or live, never overlap; free blocks are in address order and never touch |
| Malloc.UnitsConserved | user/umalloc.c:25-90 | free and live blocks together have exactly the units obtained from the system |
| Grep.Cons | user/grep.c:85-106 | a pattern begins a text exactly when its first item takes some beginning and the rest begins what follows |
| Grep.Match | user/grep.c:73-82 | decides exactly the denotational meaning of the pattern, for every pattern and text |
| Grep.MatchHere | user/grep.c:85-96 | decides whether a word of the pattern begins the text |
| Grep.MatchStar | user/grep.c:99-106 | decides the same for c* followed by the rest of the pattern |
| Grep.EmptyLaw | user/grep.c:87-92 | the empty pattern between ^ and $ stands for the empty text only |
| Grep.CharLaw | user/grep.c:93-94 | one character stands for itself and . for every character |
| Grep.StarLaw | user/grep.c:99-106 | c* stands for any number of that character, .* for every text |
| Grep.ConcatLaw | user/grep.c:85-96 | of two patterns one after the other the first takes some beginning of the text and the second the rest |
| Grep.StartLaw | user/grep.c:73-82 | without ^ a pattern may begin anywhere |
| Grep.EndLaw | user/grep.c:91-92 | without $ it may end anywhere, with $ only at the end |
| Grep.WordLaws | user/grep.c:73-96 | a word, with . for any character, matches the whole text, its beginning, its end or a part of it, as ^ and $ say |
| Grep.PlainWord | user/grep.c:73-96 | for a word of plain characters: ^w$ is equality, ^w a prefix, w$ a suffix, and w a substring |
| Grep.StrChr | user/grep.c:22-22 | the first newline of the NUL-terminated rest of the buffer, if it comes before any NUL |
| Grep.Fill | user/grep.c:18-20 | what was read follows what was kept, and a NUL follows that |
| Grep.Split | user/grep.c:21-29 | complete lines are consumed and matching ones written; what is left has no newline in front of its first NUL |
| Grep.Shift | user/grep.c:30-33 | the rest of the buffer moves to the front |
| Grep.Lines | user/grep.c:18-34 | one read keeps written output plus output due from the unread rest the same |
| Grep.Filter | user/grep.c:12-35 | for every input, however the reads split it, the output is the matching newline-ended lines up to the first that does not fit the buffer or contains a NUL |
| Grep.OutputLine | user/grep.c:21-29 | what one newline-ended line adds to the output: itself if it matches, nothing if not, and the end of the output if it has over 1022 characters or a NUL |
| Grep.CompleteIff | user/grep.c:18-34 | for one pattern, every matching newline-ended line is printed exactly when none comes at or after a line that does not fit |
| Grep.CompleteForAll | user/grep.c:18-34 | for all patterns, every matching newline-ended line is printed exactly when each line has fewer than 1023 characters and no NUL |
| Grep.LongLineLost | user/grep.c:18-34 | counterexample: a matching line of 1023 letters is not printed |
| Dirs.NameCmp | kernel/fs.c:567-570 | names compare equal exactly when they agree up to the first NUL or 14 characters |
| Dirs.CutIs | kernel/fs.c:567-570 | the name a buffer stands for is its beginning up to the first NUL or fourteen characters |
| Dirs.NameCopy | kernel/fs.c:623-623 | the copied field stands for the same name |
| Dirs.MapIsSearch | kernel/fs.c:583-595 | with unique names, the finite map of a directory is what a search finds |
| Dirs.Dirlookup | kernel/fs.c:583-597 | finds the slot of a name exactly when the directory's map has it |
| Dirs.Dirlink | kernel/fs.c:603-629 | adds exactly one name to the map; fails exactly when it is there or no slot can be had, and then changes nothing |
| Dirs.Cleared | kernel/sysfile.c:222-223 | clearing a slot removes exactly its name from the map |
| DirFile.EntryRoundTrip | kernel/fs.h:56-61 | an entry written as 16 bytes is read back |
| DirFile.SlotWritten | kernel/fs.c:623-625 | 16 bytes written at a slot replace or append exactly that entry of the directory |
| DirFile.WriteEntry | kernel/fs.c:623-626 | an entry is written whole or the directory file is unchanged, and only a full disk or the largest file size stops it; every changed block is logged, at most four on a disk with one bitmap block |
| DirFile.ReadEntry | kernel/fs.c:584-585 | the entry in the directory's bytes; a read that is not whole needs a hole |
| DirFile.Dirlookup | kernel/fs.c:575-598 | over the directory's bytes: finds the slot exactly when the map has the name; without holes no panic and no change |
| DirFile.FreeSlot | kernel/fs.c:616-621 | the first unused slot in the directory's bytes, or its end |
| DirFile.Dirlink | kernel/fs.c:603-629 | over the directory's bytes: adds exactly one name to the map or leaves the file as it was; fails only for a name that is there, a full disk or a full file; without holes no panic; every changed block is logged |
| DirFile.ClearEntry | kernel/sysfile.c:222-224 | over the directory's bytes: exactly the slot's name goes; the write panic is not reached without holes; every changed block is logged |
| DirFile.LinkOp | kernel/sysfile.c:132-159 | a transaction that adds a name logs every block it changes; without holes these are at most four, of the directory, its inode and the bitmap, and a consistent disk stays consistent |
| DirFile.UnlinkOp | kernel/sysfile.c:199-235 | the same for one that clears a name's slot |
| DirFile.Isdirempty | kernel/sysfile.c:174-186 | over the directory's bytes: true exactly when nothing is used behind the first two slots; the read panic is not reached without holes |
| Links.NameFile | kernel/sysfile.c:145-157 | one more name in a linked directory and one more link keep all link counts right |
| Links.NameFileInUnlinked | kernel/sysfile.c:145-157 | the same in a directory no longer linked breaks the file's count |
| Links.MakeDir | kernel/sysfile.c:276-289 | a new directory with "." and ".." and one more link on its parent keep all link counts right |
| Links.MakeDirInUnlinked | kernel/sysfile.c:276-289 | the same in a directory no longer linked makes its old parent's count wrong |
| Links.RemoveFile | kernel/sysfile.c:222-232 | one name and one link less keep all link counts right |
| Links.EmptyDirLinks | kernel/sysfile.c:215-220 | an empty directory has exactly one link, its parent's entry, and its ".." names that parent |
| Links.RemoveDir | kernel/sysfile.c:217-232 | removing an empty directory, with its parent's link for "..", keeps all link counts right |
| Links.ReclaimKeeps | kernel/fs.c:342-359 | freeing an inode without links changes no count |
| Links.Isdirempty | kernel/sysfile.c:174-186 | true exactly when nothing but the two fixed entries is used |
| Links.FileTree.constructor | mkfs/mkfs.c:117-128 | a root directory alone has right link counts |
| Links.FileTree.Link | kernel/sysfile.c:124-170 | one entry and one link more, or nothing changed, with the exact condition for success; link counts stay right exactly when the target directory is still linked |
| Links.FileTree.Unlink | kernel/sysfile.c:189-243 | link counts stay right always; the name is gone from the map, or nothing changed, with the exact condition for success; the nlink panic is not reached |
| Links.FileTree.Ialloc | kernel/fs.c:200-220 | a free inode, none exactly when there is none |
| Links.FileTree.Reclaim | kernel/fs.c:342-359 | the inode is free and link counts stay right |
| Links.FileTree.Ireclaim | kernel/fs.c:374-393 | at boot exactly the inodes in use without links are freed, and link counts stay right |
| Links.FileTree.Create | kernel/sysfile.c:246-302 | an existing file is opened, a new one is entered with right link counts exactly when the directory is still linked; the exact condition for success; a failed create changes nothing |
| Links.CreateInUnlinked | kernel/sysfile.c:246-302 | counterexample: make a directory, unlink it, create in it; the link counts are wrong |
| Links.FileTree.AddDots | kernel/sysfile.c:276-280 | the two entries of a new directory |

## Left out

- Blocking inside the pipe's critical section: `sleep` is called there without a condition lock; reads and writes are modelled up to the point of blocking.
- Writes whose user copy fails part way: the buffer may be changed without being logged; the copy is taken to succeed.
- Type, device numbers and link count of inodes on disk: `FsCrash` lays out sizes and addresses and leaves the other bytes of a slot alone.
- Bio.Cache.Bget: a cached buffer locked by another process, for which the source sleeps, is excluded; waiting for a sleep lock is the subject of `SleepWakeup`.
- Bio.Cache.Bread: as for Bget.
- RedoLog.Log.Read: as for Bget.
- Virtio.Disk.Submit: the block is taken to be on the disk and the buffer to hold one block; a device would report anything else as an error, on which the driver panics.
- Bio.Cache.Bunpin: a locked buffer whose only reference is its holder's is excluded; the source would take that reference away.
- FsCrash.InodeRoundTrip: size and addresses only; the other fields of the slot are left alone.
- FsCrash.LinkTxn: the entry alone; the link count that the same operation updates is not on the modelled disk. Excluded is a directory with holes, where a crash can lose a block.
- FsCrash.UnlinkTxn: as for LinkTxn, but a directory with holes is allowed.
- FsCrash.TruncTxn: the truncation alone; the inode's type is not on the modelled disk.
- FreeVm.Vmfault: one page table, as in every call from the current process; the source looks in the table it is passed and maps into that of the current process, and while exec builds a new address space the two differ.
- Inodes.Files.constructor: takes a consistent disk; reading the superblock is not modelled, recovery is `RedoLog.Log.RecoverFromLog` and reclaiming is `Links.FileTree.Ireclaim`.
- Links.FileTree.constructor: the root alone; the files that mkfs enters are those of `MakeFs.Image.Build`.
- Links.FileTree.Link: does not model the 16-bit width of nlink, which would wrap after 32767 links.
- Links.FileTree.Create: the inode's device numbers are not modelled, and neither is the path lookup that finds the parent directory.
- Links.FileTree.Unlink: works on slots, so the panics on incomplete reads and writes do not appear in it; `DirFile.ClearEntry` and `DirFile.Isdirempty` say when they cannot be reached.
- Dirs.Dirlookup: works on slots; `DirFile.Dirlookup` reads them from the directory's bytes.
- Dirs.Dirlink: works on slots, with growth as a parameter; `DirFile.Dirlink` writes the directory's bytes.
- Path resolution, the in-memory inode table and reference counts of open files: easier bookkeeping; `Reclaim` is the freeing branch of `iput`.
- Malloc.Heap.Malloc: addresses are in header-sized units, so memory from `sbrk` is taken to be aligned to them and above all earlier memory; requests for which `sbrk` would be asked for 2 GB or more are excluded.
- MakeFs.Image.Iappend: fails when the image has no block left, where the program would write past the end of the image file.
- Weak memory ordering, TLB flushing and multi-hart races on the temperature: steps are sequentially consistent and scheduler rounds are atomic on one hart.
- Starvation freedom for arbitrary processes: the selection order does not aim at it.
- Thermal statistics and printing, the shell, console, UART, PLIC, trap entry, context switching, ELF loading and test programs: plumbing or output only.
