# xv6-riscv, verified in Dafny

This project models the hard core of an xv6-riscv kernel with added system calls
(signals, waitpid, an IPC mailbox, a fork limit) and of a few of its user programs, and
proves what they promise. `dafny verify dfyconfig.toml` checks all of it. Nothing here is
executed.

* **Storage.** `Log.dfy` is the redo log of `kernel/log.c` as a machine whose steps are
  single block writes and crashes; `LogDevice.dfy` is the code, which keeps a ghost trace
  that is always a run of that machine. `FsModel.dfy`, `FsFiles.dfy` and `FsCode.dfy` are
  the block map, inodes and file contents of `kernel/fs.c` and the chunks of
  `kernel/file.c`; `FsSteps.dfy` interleaves the calls of several processes; `Mkfs.dfy`
  builds the image the kernel starts from; `CrashSafety.dfy` puts file system and log
  together. `BufferCache.dfy` is `kernel/bio.c`.
* **Memory.** `PageTable.dfy` and `VmCode.dfy` are the Sv39 page table (section 4.4 of the
  RISC-V Privileged Architecture manual, version 20211203) and the page allocator;
  `Heap.dfy` and `HeapCode.dfy` are `user/umalloc.c`.
* **Processes.** `Proc.dfy` is the process table as a machine with one step per critical
  section or loop iteration; `ProcWake.dfy`, `ProcKids.dfy`, `ProcForks.dfy`,
  `ProcProps.dfy`, `ProcInit.dfy` and `ProcCalls.dfy` prove its properties over all runs.
  `Signal.dfy` is
  signal delivery and sigreturn.
* **Drivers and channels.** `Virtio.dfy` is the request queue of the disk driver with the
  device at its other end; `Pipe.dfy` is `kernel/pipe.c`.
* **User programs.** `Shell.dfy` and `ShellCode.dfy` are the parser of `user/sh.c`, and
  `ShellGrammar.dfy` is its grammar;
  `Grep.dfy` the matcher of `user/grep.c`, `Rand.dfy` the generator of `user/grind.c`.

Where code changes things in place the model is a class with those fields, and every
method is proved against a function or predicate on values; the properties are lemmas
about those. Spinlocks are atomic sections, a `panic` is a result or a state proved
unreachable, C integers wrap where the code relies on it, and a call the code makes into
hardware or a user page table (copyin, copyout, sbrk, the device) is a parameter that
says whether it succeeds.

Four properties one might expect do not hold of the code; each has an input at which it
fails and its exact condition:

* Logging a block again can panic although the operation stays within its budget
  (`LogModel.RelogCanPanic`); log_write panics exactly when the log is full
  (`LogModel.PanicsExactlyWhenFull`).
* mkfs can make a root directory with a hole (`Mkfs.HoleInRoot`, 62 empty files); it does
  so exactly when the entries end at a block boundary (`Mkfs.Image.Build`).
* freewalk can panic on a space that uvmalloc has grown (`VmCode.Machine.GrowThenFree`,
  with too small a size); it does so exactly when a mapping is left at or above the size
  (`VmCode.Machine.Uvmfree`).
* init's fork_count can be too small, and init can have more than ten children
  (`ProcInit.ElevenChildren`); the shortfall is exactly the number of children that have
  not begun to exit when they are given to init (`ProcInit.InitDrift`).

## Model

| member | source | states |
|---|---|---|
| LogModel.HeadRoundTrip | G14_Project1_xv6CustomizeSystemCalls/xv6-riscv/kernel/log.c:87-115 | The header block that write_head stores, the count in its first word and then the block numbers, is read back by read_head as the same list, whatever the block held before |
| LogModel.IndexOf | G14_Project1_xv6CustomizeSystemCalls/xv6-riscv/kernel/log.c:226-229 | The absorption loop finds the first index holding the block number, or one past the list |
| LogModel.BeginOpKeeps | G14_Project1_xv6CustomizeSystemCalls/xv6-riscv/kernel/log.c:127-143 | Admitting an operation keeps the log invariant: its whole budget is reserved, nothing durable changes |
| LogModel.LogWriteKeeps | G14_Project1_xv6CustomizeSystemCalls/xv6-riscv/kernel/log.c:215-236 | A log_write inside an operation keeps the invariant and the reservation, absorbed or not, and changes nothing durable |
| LogModel.EndOpReserved | G14_Project1_xv6CustomizeSystemCalls/xv6-riscv/kernel/log.c:147-176 | When an operation ends, the log plus the unspent budgets of the others still fits |
| LogModel.EndOpKeeps | G14_Project1_xv6CustomizeSystemCalls/xv6-riscv/kernel/log.c:147-176 | Ending an operation keeps the invariant; only the last one starts a commit |
| LogModel.WriteLogKeeps | G14_Project1_xv6CustomizeSystemCalls/xv6-riscv/kernel/log.c:179-192 | Copying one block to the log while the header on disk is empty changes nothing that recovery would produce |
| LogModel.CommitHeadCommits | G14_Project1_xv6CustomizeSystemCalls/xv6-riscv/kernel/log.c:194-204 | The single header write is the commit point: before it the disk recovers to the old contents, after it to all of the new contents |
| LogModel.InstallOne | G14_Project1_xv6CustomizeSystemCalls/xv6-riscv/kernel/log.c:66-84 | Copying one logged block to its home location does not change what the disk recovers to |
| LogModel.InstallKeeps | G14_Project1_xv6CustomizeSystemCalls/xv6-riscv/kernel/log.c:66-84 | Installation during commit keeps the invariant and the recovered contents at every block write |
| LogModel.EraseHeadKeeps | G14_Project1_xv6CustomizeSystemCalls/xv6-riscv/kernel/log.c:194-204 | Erasing the header after installation keeps the recovered contents |
| LogModel.ReplayKeeps | G14_Project1_xv6CustomizeSystemCalls/xv6-riscv/kernel/log.c:66-84 | Installation during recovery keeps the recovered contents at every block write, so it can be cut short and repeated |
| LogModel.ReplayEraseKeeps | G14_Project1_xv6CustomizeSystemCalls/xv6-riscv/kernel/log.c:117-124 | Erasing the header at the end of recovery keeps the recovered contents |
| LogModel.NothingToReplay | G14_Project1_xv6CustomizeSystemCalls/xv6-riscv/kernel/log.c:117-124 | A log that is empty, or whose blocks are all in place, recovers to the disk itself |
| LogModel.StepKeeps | G14_Project1_xv6CustomizeSystemCalls/xv6-riscv/kernel/log.c:66-236 | Every step of every interleaving, crash included, keeps the invariant and is durable or the one commit point |
| LogModel.RunKeepsInv | G14_Project1_xv6CustomizeSystemCalls/xv6-riscv/kernel/log.c:66-236 | The invariant holds at every point of every run |
| LogModel.RecoversToIdeal | G14_Project1_xv6CustomizeSystemCalls/xv6-riscv/kernel/log.c:66-204 | At every point of every run with any number of crashes, inside recovery too, the disk recovers to an ideal disk that changes only when a commit completes |
| LogModel.IdleDiskIsIdeal | G14_Project1_xv6CustomizeSystemCalls/xv6-riscv/kernel/log.c:117-204 | Whenever the log is idle the home blocks on disk are those of the ideal disk, and with nothing logged so is what the kernel sees |
| LogModel.CrashAtomicity | G14_Project1_xv6CustomizeSystemCalls/xv6-riscv/kernel/log.c:66-204 | From the start of a commit, through any crashes in commit and in any number of recoveries, once the log is idle again the home blocks are all old or all as committed |
| LogModel.Reservation | G14_Project1_xv6CustomizeSystemCalls/xv6-riscv/kernel/log.c:127-236 | In every reachable state a commit excludes operations, logged numbers are distinct, and the header plus all unspent budgets is at most LOGBLOCKS |
| LogModel.BudgetPreventsPanic | G14_Project1_xv6CustomizeSystemCalls/xv6-riscv/kernel/log.c:215-236 | An operation with unspent budget never meets either panic of log_write |
| LogModel.PanicsExactlyWhenFull | G14_Project1_xv6CustomizeSystemCalls/xv6-riscv/kernel/log.c:215-236 | log_write inside an operation panics if and only if the log is full, and then every outstanding operation has spent its whole budget |
| LogModel.RelogCanPanic | G14_Project1_xv6CustomizeSystemCalls/xv6-riscv/kernel/log.c:220-232 | A reachable run in which logging an already logged block again panics, because the size check comes before absorption |
| LogCode.LogDevice.constructor | G14_Project1_xv6CustomizeSystemCalls/xv6-riscv/kernel/log.c:53-63 | A reboot keeps the disk, starts with an empty memory image and an initial state of the log machine |
| LogCode.LogDevice.BeginOp | G14_Project1_xv6CustomizeSystemCalls/xv6-riscv/kernel/log.c:127-143 | One pass of the waiting loop: admitted exactly when no commit runs and the worst case fits; then it is the machine's step |
| LogCode.LogDevice.Search | G14_Project1_xv6CustomizeSystemCalls/xv6-riscv/kernel/log.c:226-229 | The loop computes the first index of the block number among the logged ones |
| LogCode.LogDevice.LogWrite | G14_Project1_xv6CustomizeSystemCalls/xv6-riscv/kernel/log.c:215-236 | An operation with budget left, or a log with room, is always enough for log_write not to panic; the code then makes exactly the step of the machine, absorbed or appended |
| LogCode.LogDevice.WriteHead | G14_Project1_xv6CustomizeSystemCalls/xv6-riscv/kernel/log.c:103-115 | Writes exactly the encoded header over the old contents of the header block |
| LogCode.LogDevice.ReadHead | G14_Project1_xv6CustomizeSystemCalls/xv6-riscv/kernel/log.c:87-98 | Fills the in-memory list with the decoded header |
| LogCode.LogDevice.InstallTrans | G14_Project1_xv6CustomizeSystemCalls/xv6-riscv/kernel/log.c:66-84 | The whole installation loop leaves the recovered home contents as they were and, in a commit, what the kernel sees |
| LogCode.LogDevice.WriteLogBlocks | G14_Project1_xv6CustomizeSystemCalls/xv6-riscv/kernel/log.c:179-192 | The copying loop reaches the commit point without changing any home block the kernel sees |
| LogCode.LogDevice.Commit | G14_Project1_xv6CustomizeSystemCalls/xv6-riscv/kernel/log.c:194-204 | After commit the log is empty, disk and memory agree, and the home contents are what the kernel saw |
| LogCode.LogDevice.EndOp | G14_Project1_xv6CustomizeSystemCalls/xv6-riscv/kernel/log.c:147-176 | Only the last operation commits; earlier ones leave the disk alone; the trace stays a run of the machine |
| LogCode.LogDevice.RecoverFromLog | G14_Project1_xv6CustomizeSystemCalls/xv6-riscv/kernel/log.c:117-124 | After recovery the log is empty and the home blocks are what the disk recovered to |
| CrashSafety.ValidIsConsistent | G14_Project1_xv6CustomizeSystemCalls/xv6-riscv/kernel/fs.c:66-562 | At the end of every file system call the disk image, read without memory, is consistent: ownership, no holes, inodes on disk |
| CrashSafety.HomeDecides | G14_Project1_xv6CustomizeSystemCalls/xv6-riscv/kernel/log.c:66-84 | Consistency and every file's bytes depend only on blocks outside the log area |
| CrashSafety.RecoveryIsConsistent | G14_Project1_xv6CustomizeSystemCalls/xv6-riscv/kernel/log.c:117-204 | If the image is consistent whenever no call is in progress, then after any crashes the disk recovers to a consistent file system |
| CrashSafety.CodeCallIsCall | G14_Project1_xv6CustomizeSystemCalls/xv6-riscv/kernel/file.c:160-165 | A call of the file system code from one valid state to another, within its budget and with blocks its operation may have logged before, is a step of the storage system |
| CrashSafety.LoggedAreHome | G14_Project1_xv6CustomizeSystemCalls/xv6-riscv/kernel/fs.c:528-562 | Every block that writei or itrunc may log lies outside the log area |
| CrashSafety.ActSafe | G14_Project1_xv6CustomizeSystemCalls/xv6-riscv/kernel/fs.c:66-562 | One buffer write or one change of a locked inode by any operation keeps the recovered disk consistent and the file system in order, whatever the others are in the middle of |
| CrashSafety.BudgetSuffices | G14_Project1_xv6CustomizeSystemCalls/xv6-riscv/kernel/log.c:215-236 | An operation with budget left can always make its next step: the block lies outside the log and log_write does not panic |
| CrashSafety.StepSafe | G14_Project1_xv6CustomizeSystemCalls/xv6-riscv/kernel/log.c:69-236 | A step of an operation, a whole call, begin_op, end_op, each block write of a commit or a recovery, and a crash keep the storage system safe |
| CrashSafety.CallRunIsSafe | G14_Project1_xv6CustomizeSystemCalls/xv6-riscv/kernel/log.c:69-236 | Over every run, with the steps of all operations interleaved in any order and with commits, crashes and recoveries, at every point the disk recovers to a consistent file system, and whenever no operation is outstanding the file system in memory is valid |
| CrashSafety.CrashInsideCall | G14_Project1_xv6CustomizeSystemCalls/xv6-riscv/kernel/log.c:215-236 | A crash between any two log_writes of a call loses the whole call: it leaves the state that a crash before the call leaves |
| CrashSafety.CallIsLogWrites | G14_Project1_xv6CustomizeSystemCalls/xv6-riscv/kernel/log.c:215-236 | The changes of one call, all to logged blocks within one budget, old ones logged again included, are a run of log_write steps that never panics and ends with the call's image in memory |
| FsModel.AllocateKeeps | G14_Project1_xv6CustomizeSystemCalls/xv6-riscv/kernel/fs.c:66-89 | Marking and zeroing a free block makes it spare and disturbs no slot and no byte |
| FsModel.StoreAddrKeeps | G14_Project1_xv6CustomizeSystemCalls/xv6-riscv/kernel/fs.c:405-444 | Storing a spare block in an inode slot keeps exact single ownership and every byte of every file |
| FsModel.StoreEntryKeeps | G14_Project1_xv6CustomizeSystemCalls/xv6-riscv/kernel/fs.c:405-444 | The same for an entry of the indirect block |
| FsModel.OnlyHere | G14_Project1_xv6CustomizeSystemCalls/xv6-riscv/kernel/fs.c:405-444 | The block of a nonzero slot is in no other slot of any inode |
| FsModel.WriteDataKeeps | G14_Project1_xv6CustomizeSystemCalls/xv6-riscv/kernel/fs.c:528-562 | Overwriting a data block of a file changes no slot, no bitmap bit and no byte elsewhere |
| FsModel.FreeKeeps | G14_Project1_xv6CustomizeSystemCalls/xv6-riscv/kernel/fs.c:92-106 | Clearing the bit of a spare block keeps ownership, slots and bytes |
| FsModel.DropFile | G14_Project1_xv6CustomizeSystemCalls/xv6-riscv/kernel/fs.c:448-476 | Dropping an inode's numbers makes exactly its own blocks spare |
| FsFiles.InodeRoundTrip | G14_Project1_xv6CustomizeSystemCalls/xv6-riscv/kernel/fs.c:226-242 | iupdate stores exactly this inode in its 64-byte slot, kind, links, size and block numbers in that order, and leaves its neighbours in the block alone |
| FsSteps.StepKeeps | G14_Project1_xv6CustomizeSystemCalls/xv6-riscv/kernel/fs.c:66-562 | With the steps of several calls interleaved, every step keeps each block number stored once or spare with one holder, and every inode nobody has locked without holes and equal to its dinode |
| FsSteps.IdleIsValid | G14_Project1_xv6CustomizeSystemCalls/xv6-riscv/kernel/fs.c:66-562 | When no call is under way the interleaved steps have left the file system as calls run one at a time leave it |
| FsSteps.OthersUnaffected | G14_Project1_xv6CustomizeSystemCalls/xv6-riscv/kernel/fs.c:66-562 | A step of one inode's holder, also one on a shared bitmap or inode block, changes nothing another holder relies on: inode, dinode, block numbers, bytes, spare blocks |
| FsSteps.OthersDisableNothing | G14_Project1_xv6CustomizeSystemCalls/xv6-riscv/kernel/fs.c:66-562 | What a holder can do next it can still do after a step of another, except to take the bit the other has just taken |
| FsFiles.SpliceTwice | G14_Project1_xv6CustomizeSystemCalls/xv6-riscv/kernel/fs.c:528-562 | Two consecutive pieces splice as their concatenation |
| FsFiles.ContentSpliced | G14_Project1_xv6CustomizeSystemCalls/xv6-riscv/kernel/fs.c:528-562 | The bytes written and the new size together make the file the splice of the old one |
| FsFiles.MappedInTwoSteps | G14_Project1_xv6CustomizeSystemCalls/xv6-riscv/kernel/fs.c:405-444 | Mapping through the indirect block is an indirect allocation or nothing, then an entry allocation or nothing |
| FsFiles.InodeStored | G14_Project1_xv6CustomizeSystemCalls/xv6-riscv/kernel/fs.c:226-242 | Writing the dinode makes memory and disk agree for this inode and touches nothing else |
| FsFiles.ChunkTouchesFour | G14_Project1_xv6CustomizeSystemCalls/xv6-riscv/kernel/file.c:134-179 | Three blocks' worth of bytes, however aligned, lie in at most four blocks |
| FsCode.FileSystem.Balloc | G14_Project1_xv6CustomizeSystemCalls/xv6-riscv/kernel/fs.c:66-89 | Returns the lowest free block, marked and zeroed, with the two blocks it logged; 0 exactly when the disk is full, and then nothing changes |
| FsCode.FileSystem.Bfree | G14_Project1_xv6CustomizeSystemCalls/xv6-riscv/kernel/fs.c:92-106 | Clears the bit of an owned block; the panic on a free block is excluded by ownership |
| FsCode.FileSystem.Iupdate | G14_Project1_xv6CustomizeSystemCalls/xv6-riscv/kernel/fs.c:226-242 | Afterwards the inode table on disk equals the one in memory; slots and bytes are unchanged |
| FsCode.FileSystem.Bmap | G14_Project1_xv6CustomizeSystemCalls/xv6-riscv/kernel/fs.c:405-444 | Returns the block of the file block, allocating block and indirect block if needed; ownership, other files and all bytes are kept; 0 only when the disk is full |
| FsCode.FileSystem.Readi | G14_Project1_xv6CustomizeSystemCalls/xv6-riscv/kernel/fs.c:494-519 | Returns exactly the requested slice of the file clipped at its size, and nothing when the offset is beyond it or the sum wraps; no block is allocated |
| FsCode.FileSystem.Writei | G14_Project1_xv6CustomizeSystemCalls/xv6-riscv/kernel/fs.c:528-562 | The file becomes the old bytes with the stored prefix spliced in; of its inode only the size and block numbers that were 0 change, of other inodes and files nothing; the prefix is short only when the disk is full; -1 exactly in the source's three cases; everything changed is logged |
| FsCode.FileSystem.Itrunc | G14_Project1_xv6CustomizeSystemCalls/xv6-riscv/kernel/fs.c:448-476 | Releases exactly the file's blocks, none twice, and empties the file; other files are unchanged; only bitmap blocks and the inode's block are logged |
| FsCode.FileSystem.ChunkFitsBudget | G14_Project1_xv6CustomizeSystemCalls/xv6-riscv/kernel/file.c:134-179 | A chunk logs at most seven distinct blocks when the bitmap is one block |
| FsCode.FileSystem.WriteChunk | G14_Project1_xv6CustomizeSystemCalls/xv6-riscv/kernel/file.c:134-179 | One transaction extends the stored prefix by what writei reports, within the log budget; it is refused exactly when the offset is past the end or the chunk past the largest file, and is short only when the disk is full |
| FsCode.FileSystem.FileWrite | G14_Project1_xv6CustomizeSystemCalls/xv6-riscv/kernel/file.c:134-179 | Stores a prefix of the data at the offset and changes no other inode or file, nor the kind or links of this one; the result is n exactly when all of it was stored, -1 otherwise; a bad range always fails and anything else only with the disk full; every changed block is in one of its transactions and each is within seven blocks |
| Mkfs.TakeKeeps | G14_Project1_xv6CustomizeSystemCalls/xv6-riscv/mkfs/mkfs.c:254-296 | Handing out the next block number makes one marked, zeroed, spare block |
| Mkfs.Image.constructor | G14_Project1_xv6CustomizeSystemCalls/xv6-riscv/mkfs/mkfs.c:68-175 | The zeroed image satisfies the building invariant |
| Mkfs.PieceCost | G14_Project1_xv6CustomizeSystemCalls/xv6-riscv/mkfs/mkfs.c:254-296 | Bytes within one block take exactly the blocks that mapping it takes: none if mapped, one, or two with the indirect block |
| Mkfs.Image.MapBlock | G14_Project1_xv6CustomizeSystemCalls/xv6-riscv/mkfs/mkfs.c:254-296 | Finds or hands out the block of a file block, direct or indirect, keeping single ownership; succeeds exactly when the blocks it needs are left |
| Mkfs.Image.Iappend | G14_Project1_xv6CustomizeSystemCalls/xv6-riscv/mkfs/mkfs.c:254-296 | The file grows by exactly the data and all others keep their bytes; succeeds exactly when the new length is within the largest file and the blocks it needs are left |
| Mkfs.Image.Ialloc | G14_Project1_xv6CustomizeSystemCalls/xv6-riscv/mkfs/mkfs.c:222-234 | Hands out the next inode with the kind asked for, one link, size 0 and no block; others unchanged |
| Mkfs.Image.FixRoot | G14_Project1_xv6CustomizeSystemCalls/xv6-riscv/mkfs/mkfs.c:165-170 | Rounds the root size up, past an exact multiple too, and changes nothing else of the inode; no block is mapped for the extra bytes |
| Mkfs.Image.RootHole | G14_Project1_xv6CustomizeSystemCalls/xv6-riscv/mkfs/mkfs.c:165-170 | The rounded root has no hole if and only if its size was not an exact multiple of the block size |
| Mkfs.Image.WriteBitmap | G14_Project1_xv6CustomizeSystemCalls/xv6-riscv/mkfs/mkfs.c:236-250 | The bitmap written marks exactly the blocks handed out |
| Mkfs.Image.AddFile | G14_Project1_xv6CustomizeSystemCalls/xv6-riscv/mkfs/mkfs.c:130-163 | Adds an inode, a directory entry and the file's bytes; succeeds exactly when the name, the length and the blocks of the image fit |
| Mkfs.Image.Build | G14_Project1_xv6CustomizeSystemCalls/xv6-riscv/mkfs/mkfs.c:68-175 | mkfs finishes if and only if all names and lengths fit and metadata, root directory and files take at most FSSIZE blocks; the image then has exact block ownership, inodes on disk, the root of kind directory, the others of kind file, each with one link, and the files' bytes, and is free of holes if and only if the root directory does not end at a block boundary, that is (files + 2) is not a multiple of 64 |
| Mkfs.RootEntryIs | G14_Project1_xv6CustomizeSystemCalls/xv6-riscv/mkfs/mkfs.c:135-160 | Entries 0 and 1 of the root directory are . and .. and name the root; entry n from 2 on names inode n and holds the name of file n - 2 |
| Mkfs.DirentReadsBack | G14_Project1_xv6CustomizeSystemCalls/xv6-riscv/mkfs/mkfs.c:149-152 | An encoded directory entry gives back its number, low byte first, and its name |
| Mkfs.HoleInRoot | G14_Project1_xv6CustomizeSystemCalls/xv6-riscv/mkfs/mkfs.c:165-170 | With 62 empty files mkfs finishes and its root directory has a hole |
| BufferCache.UnlinkKeepsRing | G14_Project1_xv6CustomizeSystemCalls/xv6-riscv/kernel/bio.c:116-137 | Unlinking a buffer leaves the ring of all the others in order |
| BufferCache.PushFrontKeepsRing | G14_Project1_xv6CustomizeSystemCalls/xv6-riscv/kernel/bio.c:116-137 | Linking a buffer behind the head puts it first in the ring |
| BufferCache.ReleaseKeepsOrder | G14_Project1_xv6CustomizeSystemCalls/xv6-riscv/kernel/bio.c:116-137 | Moving a released buffer to the front keeps the ring in order of last full release |
| BufferCache.RecycleKeeps | G14_Project1_xv6CustomizeSystemCalls/xv6-riscv/kernel/bio.c:58-89 | Giving an unreferenced buffer to an uncached block keeps one buffer per block and current contents |
| BufferCache.FillKeeps | G14_Project1_xv6CustomizeSystemCalls/xv6-riscv/kernel/bio.c:92-103 | Reading a block that is not in a valid buffer gets its latest contents |
| BufferCache.WriteKeeps | G14_Project1_xv6CustomizeSystemCalls/xv6-riscv/kernel/bio.c:106-112 | Writing a locked buffer makes the disk current for its block |
| BufferCache.Bcache.constructor | G14_Project1_xv6CustomizeSystemCalls/xv6-riscv/kernel/bio.c:36-53 | All buffers are in one ring, none holds a block, and logical contents are those on disk |
| BufferCache.Bcache.Binit | G14_Project1_xv6CustomizeSystemCalls/xv6-riscv/kernel/bio.c:36-53 | The linking loop builds one ring with each buffer once, the last one first |
| BufferCache.Bcache.FindCached | G14_Project1_xv6CustomizeSystemCalls/xv6-riscv/kernel/bio.c:66-74 | The first search finds the block's buffer or proves that there is none |
| BufferCache.Bcache.FindVictim | G14_Project1_xv6CustomizeSystemCalls/xv6-riscv/kernel/bio.c:78-87 | The second search finds the unused buffer whose last full release is oldest, or proves that all are in use |
| BufferCache.Bcache.Bget | G14_Project1_xv6CustomizeSystemCalls/xv6-riscv/kernel/bio.c:58-89 | Returns the one buffer of the block with one more reference; recycles only an unused buffer, the least recently released; panics exactly when every buffer is in use for another block |
| BufferCache.Bcache.Lock | G14_Project1_xv6CustomizeSystemCalls/xv6-riscv/kernel/bio.c:66-74 | A process with a reference obtains the sleep-lock; nothing else changes |
| BufferCache.Bcache.Fill | G14_Project1_xv6CustomizeSystemCalls/xv6-riscv/kernel/bio.c:92-103 | The buffer returned holds the latest logical contents of the block |
| BufferCache.Bcache.Modify | G14_Project1_xv6CustomizeSystemCalls/xv6-riscv/kernel/bio.c:8-12 | A client's change becomes the logical contents of the block |
| BufferCache.Bcache.Bwrite | G14_Project1_xv6CustomizeSystemCalls/xv6-riscv/kernel/bio.c:106-112 | Afterwards the disk holds the logical contents of the block |
| BufferCache.Bcache.Bpin | G14_Project1_xv6CustomizeSystemCalls/xv6-riscv/kernel/bio.c:139-144 | One more reference, a pin, everything else the same |
| BufferCache.Bcache.Bunpin | G14_Project1_xv6CustomizeSystemCalls/xv6-riscv/kernel/bio.c:146-151 | One pin less, everything else the same; the count may reach zero |
| BufferCache.Bcache.Unlock | G14_Project1_xv6CustomizeSystemCalls/xv6-riscv/kernel/bio.c:119-122 | The holder gives up the sleep-lock of a buffer that is clean or pinned; its reference stays |
| BufferCache.Bcache.Release | G14_Project1_xv6CustomizeSystemCalls/xv6-riscv/kernel/bio.c:124-136 | Whoever has locked the buffer meanwhile, the reference given up is the caller's own; with the last one the buffer is unlocked and clean and becomes the most recently released; contents and other buffers are unchanged |
| PageTable.HardwareAgrees | G14_Project1_xv6CustomizeSystemCalls/xv6-riscv/kernel/vm.c:97-115 | The tree denotes exactly what the Sv39 hardware walk computes |
| PageTable.DistinctEntries | G14_Project1_xv6CustomizeSystemCalls/xv6-riscv/kernel/riscv.h:365-380 | Distinct page numbers below MAXVA reach distinct leaf entries |
| PageTable.MadeFlags | G14_Project1_xv6CustomizeSystemCalls/xv6-riscv/kernel/riscv.h:358-370 | The entry made of PA2PTE(pa), perm and PTE_V has the valid bit and the bits of perm and no others among the ten flags |
| PageTable.PointerBits | G14_Project1_xv6CustomizeSystemCalls/xv6-riscv/kernel/vm.c:262-278 | An entry points to a next table if and only if its R, W and X bits are clear |
| PageTable.PxDigits | G14_Project1_xv6CustomizeSystemCalls/xv6-riscv/kernel/riscv.h:372-375 | The three table indices are the base-512 digits of the page number |
| PageTable.AddTable | G14_Project1_xv6CustomizeSystemCalls/xv6-riscv/kernel/vm.c:97-115 | Installing a zeroed page as a table below a node changes no mapping |
| PageTable.SetLeaf | G14_Project1_xv6CustomizeSystemCalls/xv6-riscv/kernel/vm.c:145-174 | Writing a leaf entry changes the map at that page number only |
| PageTable.GrowKeepsPrivate | G14_Project1_xv6CustomizeSystemCalls/xv6-riscv/kernel/vm.c:97-115 | Growing the tables keeps pages unshared and conserves free, table and mapped pages |
| PageTable.UnmapKeepsPrivate | G14_Project1_xv6CustomizeSystemCalls/xv6-riscv/kernel/vm.c:192-212 | Unmapping a page removes exactly that page from the space's total |
| PageTable.FreeKeepsPrivate | G14_Project1_xv6CustomizeSystemCalls/xv6-riscv/kernel/kalloc.c:46-63 | Freeing a page nobody owns adds exactly it to the total |
| PageTable.TakeKeepsPrivate | G14_Project1_xv6CustomizeSystemCalls/xv6-riscv/kernel/kalloc.c:68-82 | Allocating takes exactly one page out of the total |
| PageTable.PaidShort | G14_Project1_xv6CustomizeSystemCalls/xv6-riscv/kernel/vm.c:216-240 | If the next page does not fit, fewer pages were free than all pages and all missing tables together |
| PageTable.PaidFor | G14_Project1_xv6CustomizeSystemCalls/xv6-riscv/kernel/vm.c:216-240 | If every page was mapped, at least that many pages were free |
| PageTable.NeededAtMost | G14_Project1_xv6CustomizeSystemCalls/xv6-riscv/kernel/vm.c:97-115 | Each page takes at most itself and two tables |
| PageTable.RootOwnsAll | G14_Project1_xv6CustomizeSystemCalls/xv6-riscv/kernel/vm.c:262-278 | The pages below the root are all the pages of the tree |
| PageTable.CleanIffEmpty | G14_Project1_xv6CustomizeSystemCalls/xv6-riscv/kernel/vm.c:262-278 | No leaf is left in the tree if and only if the map it denotes is empty |
| VmCode.Machine.constructor | G14_Project1_xv6CustomizeSystemCalls/xv6-riscv/kernel/kalloc.c:26-31 | All whole pages of the pool are on the free list |
| VmCode.Machine.Freerange | G14_Project1_xv6CustomizeSystemCalls/xv6-riscv/kernel/kalloc.c:33-40 | The loop frees every whole page of the range once |
| VmCode.Machine.Kfree | G14_Project1_xv6CustomizeSystemCalls/xv6-riscv/kernel/kalloc.c:46-63 | Fills the page with junk and pushes it on the free list; no other page changes; the panics cannot be reached |
| VmCode.Machine.Kalloc | G14_Project1_xv6CustomizeSystemCalls/xv6-riscv/kernel/kalloc.c:68-82 | Pops a page, full of junk, that is then nobody's; 0 exactly when the list is empty |
| VmCode.Machine.Walk | G14_Project1_xv6CustomizeSystemCalls/xv6-riscv/kernel/vm.c:97-115 | Returns the hardware's leaf entry; the map never changes, even when memory runs out half way; with alloc it fails exactly when fewer pages are free than tables are missing on the path, and takes exactly those |
| VmCode.Machine.Mappages | G14_Project1_xv6CustomizeSystemCalls/xv6-riscv/kernel/vm.c:145-174 | Adds exactly the requested pages with their permissions, or a prefix of them up to an entry that is valid already (the remap panic) or up to the end of memory; without a remap it succeeds exactly when the missing tables fit in the free pages |
| VmCode.Machine.Uvmunmap | G14_Project1_xv6CustomizeSystemCalls/xv6-riscv/kernel/vm.c:192-212 | Removes exactly the valid mappings of its range and, with do_free, conserves all pages |
| VmCode.Machine.Uvmdealloc | G14_Project1_xv6CustomizeSystemCalls/xv6-riscv/kernel/vm.c:246-258 | Shrinking unmaps exactly the pages between the two rounded sizes; otherwise nothing changes |
| VmCode.Machine.Uvmalloc | G14_Project1_xv6CustomizeSystemCalls/xv6-riscv/kernel/vm.c:216-240 | Panics exactly when memory lasts up to a page that is mapped already; otherwise fails exactly when such a page is in its way or the new pages and the missing tables are more than the free pages; on success the new pages are fresh, zeroed, unshared, and valid, readable and for the user with exactly the other permissions asked for; on failure the map is what it was and every page is accounted for; only this space and the free list are written |
| VmCode.Machine.Uvmcopy | G14_Project1_xv6CustomizeSystemCalls/xv6-riscv/kernel/vm.c:296-324 | Fails exactly when the pages to copy and the tables the child is missing are more than the free pages; on success the child has equal contents and flags on fresh pages; on failure its map is as before; only the child and the free list are written and pages are conserved |
| VmCode.Machine.Freewalk | G14_Project1_xv6CustomizeSystemCalls/xv6-riscv/kernel/vm.c:262-278 | Panics if and only if a leaf is left below the node; otherwise frees exactly the pages below it |
| VmCode.Machine.Uvmfree | G14_Project1_xv6CustomizeSystemCalls/xv6-riscv/kernel/vm.c:282-288 | Gives back every page of the space if and only if no mapping is left at or above the rounded size; otherwise freewalk panics |
| VmCode.Machine.Uvmcreate | G14_Project1_xv6CustomizeSystemCalls/xv6-riscv/kernel/vm.c:178-187 | An empty map on one page from the free list, or nothing when there is none |
| VmCode.Machine.PgUpIsLeast | G14_Project1_xv6CustomizeSystemCalls/xv6-riscv/kernel/riscv.h:355-356 | PGROUNDUP is the least whole number of pages that holds the size |
| VmCode.Machine.UserPermBits | G14_Project1_xv6CustomizeSystemCalls/xv6-riscv/kernel/vm.c:216-240 | The permission of a new page has the readable and the user bit and the bits of xperm, and no others |
| VmCode.Machine.Vmfault | G14_Project1_xv6CustomizeSystemCalls/xv6-riscv/kernel/vm.c:452-473 | Maps one fresh zeroed page, valid, readable, writable and for the user, at the faulting page and changes nothing else of the map; 0 exactly when the address is not below the size, the page is mapped, or the page and its missing tables are more than the free pages |
| VmCode.Machine.OtherSpaceKept | G14_Project1_xv6CustomizeSystemCalls/xv6-riscv/kernel/vm.c:216-240 | An operation that writes only one space and the free list leaves every other space a private space with the same map and the same contents |
| VmCode.Machine.GrowThenFree | G14_Project1_xv6CustomizeSystemCalls/xv6-riscv/kernel/vm.c:178-290 | Creating a space, growing it and freeing it gives back every page if and only if the size passed covers what was mapped; with a smaller size freewalk panics |
| HeapModel.InsertKeeps | G14_Project1_xv6CustomizeSystemCalls/xv6-riscv/user/umalloc.c:24-44 | Linking a block in use between its free neighbours keeps the ring ordered and every unit in one block |
| HeapModel.MergeKeeps | G14_Project1_xv6CustomizeSystemCalls/xv6-riscv/user/umalloc.c:24-44 | Merging two touching free blocks keeps the ring ordered and every unit in one block |
| HeapModel.TakeKeeps | G14_Project1_xv6CustomizeSystemCalls/xv6-riscv/user/umalloc.c:76-77 | Unlinking a block of exactly the size hands all of it out |
| HeapModel.CutKeeps | G14_Project1_xv6CustomizeSystemCalls/xv6-riscv/user/umalloc.c:78-82 | Cutting the tail off a larger block makes a new block that overlaps nothing |
| HeapModel.ExtendKeeps | G14_Project1_xv6CustomizeSystemCalls/xv6-riscv/user/umalloc.c:46-61 | Fresh memory above the heap becomes one allocated block |
| HeapModel.MergeGaps | G14_Project1_xv6CustomizeSystemCalls/xv6-riscv/user/umalloc.c:24-44 | After a merge no junction at or behind it touches |
| HeapCode.FreeKeeps | G14_Project1_xv6CustomizeSystemCalls/xv6-riscv/user/umalloc.c:24-44 | free restores the ring with no two adjacent free blocks, keeps every unit in exactly one block, writes to no block in use, and leaves a free block at least as large as the one freed |
| HeapCode.TakeWhole | G14_Project1_xv6CustomizeSystemCalls/xv6-riscv/user/umalloc.c:76-77 | Handing out a whole block keeps all invariants and every other block's contents |
| HeapCode.CutTail | G14_Project1_xv6CustomizeSystemCalls/xv6-riscv/user/umalloc.c:78-82 | Handing out a tail keeps all invariants and every other block's contents |
| HeapCode.BlocksPartition | G14_Project1_xv6CustomizeSystemCalls/xv6-riscv/user/umalloc.c:24-90 | Blocks, free or allocated, never overlap and every unit from sbrk lies in one |
| HeapCode.Heap.constructor | G14_Project1_xv6CustomizeSystemCalls/xv6-riscv/user/umalloc.c:21-22 | Before the first malloc nothing is free and nothing is allocated |
| HeapCode.Heap.FindSlot | G14_Project1_xv6CustomizeSystemCalls/xv6-riscv/user/umalloc.c:30-32 | The search from freep ends, at the free block with the highest address below the freed one |
| HeapCode.Heap.Free | G14_Project1_xv6CustomizeSystemCalls/xv6-riscv/user/umalloc.c:24-44 | The block becomes free, all others keep size and contents, the invariants hold |
| HeapCode.Heap.Morecore | G14_Project1_xv6CustomizeSystemCalls/xv6-riscv/user/umalloc.c:46-61 | Null exactly when sbrk fails; otherwise at least 4096 units are added and a large enough free block exists |
| HeapCode.Heap.Carve | G14_Project1_xv6CustomizeSystemCalls/xv6-riscv/user/umalloc.c:75-85 | The block or its tail is handed out with exactly the requested units |
| HeapCode.Heap.Malloc | G14_Project1_xv6CustomizeSystemCalls/xv6-riscv/user/umalloc.c:63-90 | Ends after at most one morecore; null if and only if nothing fits and sbrk fails; sbrk is asked only when nothing fits; the block is new, holds the bytes asked for and not a whole unit more, and no allocated unit changes |
| ProcModel.OwnKeeps | G14_Project1_xv6CustomizeSystemCalls/xv6-riscv/kernel/proc.c:734-761 | Steps that touch only the acting process and wait_lock (sleep, also inside kexit, resume, lock, yield, fork bookkeeping) keep the table relations |
| ProcModel.ForkAllocKeeps | G14_Project1_xv6CustomizeSystemCalls/xv6-riscv/kernel/proc.c:110-162 | Allocating a slot gives a fresh pid to an unused slot that only this fork fills |
| ProcModel.ForkFailKeeps | G14_Project1_xv6CustomizeSystemCalls/xv6-riscv/kernel/proc.c:290-294 | A failed copy frees the slot again and nobody is left pointing at it |
| ProcModel.ForkLinkKeeps | G14_Project1_xv6CustomizeSystemCalls/xv6-riscv/kernel/proc.c:315-317 | Setting the parent makes an older, live process the parent |
| ProcModel.ForkRunKeeps | G14_Project1_xv6CustomizeSystemCalls/xv6-riscv/kernel/proc.c:319-321 | The child becomes runnable only after it has a parent |
| ProcModel.ExitBeginKeeps | G14_Project1_xv6CustomizeSystemCalls/xv6-riscv/kernel/proc.c:437-443 | Decrementing the parent's count and entering kexit keeps the table relations |
| ProcModel.ReparentStepKeeps | G14_Project1_xv6CustomizeSystemCalls/xv6-riscv/kernel/proc.c:419-430 | One iteration of reparent moves a child to init or moves on; given-away children never return |
| ProcModel.WakeStepKeeps | G14_Project1_xv6CustomizeSystemCalls/xv6-riscv/kernel/proc.c:765-779 | One iteration of wakeup changes at most a sleeper's state |
| ProcModel.ExitDoneKeeps | G14_Project1_xv6CustomizeSystemCalls/xv6-riscv/kernel/proc.c:465-472 | A process becomes a zombie only when nobody has it as parent |
| ProcModel.ScanStepKeeps | G14_Project1_xv6CustomizeSystemCalls/xv6-riscv/kernel/proc.c:496-524 | One iteration of the scans of kwait and kwaitpid, freeing the zombie found, keeps the table relations; ProcCalls.WaitReaps and ProcCalls.WaitPasses say what it does |
| ProcModel.SendToKeeps | G14_Project1_xv6CustomizeSystemCalls/xv6-riscv/kernel/proc.c:901-935 | Filling a mailbox keeps the table relations |
| ProcModel.TableKeeps | G14_Project1_xv6CustomizeSystemCalls/xv6-riscv/kernel/proc.c:110-967 | Every step of every process keeps pids distinct, parents live and older, forks private and wait_lock exclusive |
| ProcWake.OwnAwake | G14_Project1_xv6CustomizeSystemCalls/xv6-riscv/kernel/proc.c:597-605 | A process goes to sleep only when none of its matching children is a zombie |
| ProcWake.OwnInformed | G14_Project1_xv6CustomizeSystemCalls/xv6-riscv/kernel/proc.c:937-967 | A receiver goes to sleep only when its mailbox is empty |
| ProcWake.ReparentWakes | G14_Project1_xv6CustomizeSystemCalls/xv6-riscv/kernel/proc.c:419-430 | A zombie handed to a sleeping init leaves a wakeup of init still to come before wait_lock is free |
| ProcWake.WakeAwake | G14_Project1_xv6CustomizeSystemCalls/xv6-riscv/kernel/proc.c:765-779 | A wakeup loop that has passed a sleeper has woken it |
| ProcWake.ZombieWake | G14_Project1_xv6CustomizeSystemCalls/xv6-riscv/kernel/proc.c:462-472 | When a process becomes a zombie its parent is not asleep waiting for it |
| ProcWake.ScanAwake | G14_Project1_xv6CustomizeSystemCalls/xv6-riscv/kernel/proc.c:496-524 | A finished scan has seen no matching zombie, also when kwaitpid stops at the first match |
| ProcWake.SendWakes | G14_Project1_xv6CustomizeSystemCalls/xv6-riscv/kernel/proc.c:901-935 | A message put in a sleeping receiver's mailbox leaves a wakeup still to come |
| ProcWake.WakeKeeps | G14_Project1_xv6CustomizeSystemCalls/xv6-riscv/kernel/proc.c:110-967 | Every step keeps the wakeup invariant |
| ProcKids.StepStays | G14_Project1_xv6CustomizeSystemCalls/xv6-riscv/kernel/proc.c:167-186 | No step of one process takes a child from another |
| ProcKids.ScanExpects | G14_Project1_xv6CustomizeSystemCalls/xv6-riscv/kernel/proc.c:496-524 | A scan decides to sleep only after seeing a child, and for kwaitpid the child asked for |
| ProcKids.KidsKeep | G14_Project1_xv6CustomizeSystemCalls/xv6-riscv/kernel/proc.c:110-967 | Every step keeps every waiting process with a child to wait for |
| ProcForks.LinkForks | G14_Project1_xv6CustomizeSystemCalls/xv6-riscv/kernel/proc.c:315-322 | The new child is counted once, by the call that has yet to add it to fork_count |
| ProcForks.ExitForks | G14_Project1_xv6CustomizeSystemCalls/xv6-riscv/kernel/proc.c:437-440 | A child that begins to exit leaves its parent's count and its parent's counted children together |
| ProcForks.ReparentForks | G14_Project1_xv6CustomizeSystemCalls/xv6-riscv/kernel/proc.c:419-430 | Giving children away changes the counts of no process but the exiting one and init |
| ProcForks.ForksKeep | G14_Project1_xv6CustomizeSystemCalls/xv6-riscv/kernel/proc.c:110-477 | Every step keeps fork_count right and at most ten |
| ProcInit.StepDrift | G14_Project1_xv6CustomizeSystemCalls/xv6-riscv/kernel/proc.c:419-440 | A step makes init's count short by one more exactly when it hands init a child that has not begun to exit, and otherwise leaves the shortfall alone |
| ProcInit.InitDrift | G14_Project1_xv6CustomizeSystemCalls/xv6-riscv/kernel/proc.c:419-440 | After every run init has exactly as many more children that have not begun to exit than its count says as there were such adoptions; the count is right if and only if there was none |
| ProcInit.ForkAllowed | G14_Project1_xv6CustomizeSystemCalls/xv6-riscv/kernel/proc.c:279-281 | fork goes on exactly while the caller has fewer than ten children that have not begun to exit; for init, ten and as many more as it has adopted |
| ProcInit.ElevenChildren | G14_Project1_xv6CustomizeSystemCalls/xv6-riscv/kernel/proc.c:419-440 | A run in which init adopts a running child and then has more than ten children |
| ProcCalls.OthersChange | G14_Project1_xv6CustomizeSystemCalls/xv6-riscv/kernel/proc.c:110-967 | What a step of one process can do to another is one of: wake it, count an exit down, give it to init, set its message flag, fill its slot by a fork, or free it when a fork fails or its parent reaps it |
| ProcCalls.ActorRemains | G14_Project1_xv6CustomizeSystemCalls/xv6-riscv/kernel/proc.c:110-967 | A step leaves the acting process its pid and parent; it is killed only by kkill, consumes a message only by a receive, and becomes a zombie only at the end of kexit |
| ProcCalls.WaitReaps | G14_Project1_xv6CustomizeSystemCalls/xv6-riscv/kernel/proc.c:484-607 | At a matching exited child the scan ends: if the status was copied out the slot is free with no pid and no parent, otherwise it is still that zombie; the caller returns, wait_lock is free and nothing else changes |
| ProcCalls.WaitPasses | G14_Project1_xv6CustomizeSystemCalls/xv6-riscv/kernel/proc.c:484-607 | Anybody else is passed; a matching child that has not exited is noted, and ends the scan of kwaitpid |
| ProcCalls.NotedStep | G14_Project1_xv6CustomizeSystemCalls/xv6-riscv/kernel/proc.c:484-607 | Every step of every process keeps that a scan has noted each matching child it has passed |
| ProcCalls.WaitGivesUp | G14_Project1_xv6CustomizeSystemCalls/xv6-riscv/kernel/proc.c:484-607 | In every reachable state a finished scan returns -1 if and only if the caller was killed or has no matching child, and otherwise goes to sleep; both release wait_lock |
| ProcCalls.WaitGoesOn | G14_Project1_xv6CustomizeSystemCalls/xv6-riscv/kernel/proc.c:484-607 | Whatever wakes or kills its caller, a wait ends only in a scan and a receive only in a look at the mailbox |
| ProcCalls.GoneForGood | G14_Project1_xv6CustomizeSystemCalls/xv6-riscv/kernel/proc.c:93-104 | A pid given out and held by nobody is held by nobody at any later point of any run |
| ProcCalls.ReapedOnce | G14_Project1_xv6CustomizeSystemCalls/xv6-riscv/kernel/proc.c:484-607 | Over every run, once a wait has reaped a child no process has its pid again, so no other wait returns it |
| ProcCalls.ZombieStays | G14_Project1_xv6CustomizeSystemCalls/xv6-riscv/kernel/proc.c:168-186 | An exited child stays, with its pid, until its parent, or init after it, reaps it with the status copied out |
| ProcCalls.YieldsBack | G14_Project1_xv6CustomizeSystemCalls/xv6-riscv/kernel/proc.c:685-693 | A process that yields is runnable and, once scheduled, in the state it left |
| ProcCalls.SleepsAndResumes | G14_Project1_xv6CustomizeSystemCalls/xv6-riscv/kernel/proc.c:734-761 | A process that sleeps on a channel of another part of the kernel, also inside kexit, is asleep there and after wakeup and scheduling goes on where it was |
| ProcCalls.LooksAgain | G14_Project1_xv6CustomizeSystemCalls/xv6-riscv/kernel/proc.c:484-607 | A wait or receive that pauses sleeps on its own process, and once woken and in possession of wait_lock looks again from the start |
| ProcCalls.ForkRefused | G14_Project1_xv6CustomizeSystemCalls/xv6-riscv/kernel/proc.c:273-324 | A fork at the limit, or without a free slot, leaves everything as it was |
| ProcCalls.ForkUndone | G14_Project1_xv6CustomizeSystemCalls/xv6-riscv/kernel/proc.c:283-294 | A fork that cannot copy memory has used up a pid, freed its slot and changed nothing else |
| ProcCalls.LockIsReturned | G14_Project1_xv6CustomizeSystemCalls/xv6-riscv/kernel/proc.c:419-607 | Each step of the holder of wait_lock, in exit, wait, receive or send, releases it or lowers the number of steps it can still take before that |
| ProcCalls.KillMarks | G14_Project1_xv6CustomizeSystemCalls/xv6-riscv/kernel/proc.c:784-803 | A kill marks its target, makes it runnable if it sleeps, and does nothing else |
| ProcCalls.KilledStays | G14_Project1_xv6CustomizeSystemCalls/xv6-riscv/kernel/proc.c:784-803 | The mark of a kill is set by kkill only and stays until the slot is freed |
| ProcCalls.Receives | G14_Project1_xv6CustomizeSystemCalls/xv6-riscv/kernel/proc.c:937-967 | A message is consumed if it was copied out and stays otherwise; without one the receiver sleeps unless it was killed |
| ProcCalls.MailboxChanges | G14_Project1_xv6CustomizeSystemCalls/xv6-riscv/kernel/proc.c:902-967 | A mailbox becomes full exactly by a send to it when empty, and empty only by its owner's receive or with the slot |
| ProcProps.BootedOk | G14_Project1_xv6CustomizeSystemCalls/xv6-riscv/kernel/proc.c:48-60 | The table after boot, with init alone, satisfies every invariant |
| ProcProps.RunKeepsInv | G14_Project1_xv6CustomizeSystemCalls/xv6-riscv/kernel/proc.c:110-967 | All invariants hold after every run |
| ProcProps.NoLostWakeup | G14_Project1_xv6CustomizeSystemCalls/xv6-riscv/kernel/proc.c:419-525 | In every reachable state with wait_lock free nobody sleeps in kwait or kwaitpid with a matching zombie child, adopted ones included, or in kipc_recv with a message ready |
| ProcProps.SleeperHasLiveChild | G14_Project1_xv6CustomizeSystemCalls/xv6-riscv/kernel/proc.c:484-607 | In every reachable state with wait_lock free a process asleep in kwait or kwaitpid has a matching child that has not exited yet |
| ProcProps.ParentIsLive | G14_Project1_xv6CustomizeSystemCalls/xv6-riscv/kernel/proc.c:273-477 | In every reachable state a parent is in use, not a zombie, and has a smaller pid |
| ProcProps.ChainEndsAtInit | G14_Project1_xv6CustomizeSystemCalls/xv6-riscv/kernel/proc.c:419-430 | The chain of parents of every started process ends at init |
| ProcProps.ProcessTree | G14_Project1_xv6CustomizeSystemCalls/xv6-riscv/kernel/proc.c:110-477 | In every reachable state each started process descends from init and no two processes share a pid |
| ProcProps.ForkLimit | G14_Project1_xv6CustomizeSystemCalls/xv6-riscv/kernel/proc.c:279-322 | In every reachable state fork_count, with the child about to be counted, is the number of children that have not begun to exit and at most ten; for init the bound on the count alone |
| SignalModel.FirstIsLowest | G14_Project1_xv6CustomizeSystemCalls/xv6-riscv/kernel/trap.c:87-102 | The loop's choice is deliverable and nothing below it is |
| SignalModel.DeliveryIsLowestFirst | G14_Project1_xv6CustomizeSystemCalls/xv6-riscv/kernel/trap.c:87-102 | Nothing is delivered inside a handler; otherwise the lowest pending signal with a handler is taken, all others stay pending, registers are kept and the context saved |
| SignalModel.SentMarks | G14_Project1_xv6CustomizeSystemCalls/xv6-riscv/kernel/proc.c:884-899 | After any sends exactly the signals pending before and those sent, of 0..31, are pending |
| SignalModel.RegisterSets | G14_Project1_xv6CustomizeSystemCalls/xv6-riscv/kernel/sysproc.c:188-204 | The signal named by the first argument gets the second as its handler and a0 becomes 0, or -1 outside 0..31; no other handler, register or signal changes |
| SignalModel.NoSignalLost | G14_Project1_xv6CustomizeSystemCalls/xv6-riscv/kernel/trap.c:87-102 | A signal pending before a trap or sent during it is pending afterwards, or its handler is the one entered |
| SignalModel.TrapResumes | G14_Project1_xv6CustomizeSystemCalls/xv6-riscv/kernel/trap.c:37-111 | Without a signal to deliver, an interrupt resumes the same frame, signal the next instruction with its result in a0, and any other call the frame it left |
| SignalModel.HandlerUndisturbed | G14_Project1_xv6CustomizeSystemCalls/xv6-riscv/kernel/trap.c:37-111 | Inside a handler no trap but sigreturn changes the saved context or starts a second handler |
| SignalModel.SavedUntilSigreturn | G14_Project1_xv6CustomizeSystemCalls/xv6-riscv/kernel/trap.c:37-111 | Over any run of traps without sigreturn the saved context stays |
| SignalModel.SigreturnRestores | G14_Project1_xv6CustomizeSystemCalls/xv6-riscv/kernel/sysproc.c:206-216 | sigreturn with the store of its result leaves the handler and restores every register and the pc, or hands the same context to the next handler, if and only if another signal is deliverable |
| SignalModel.ChainRestores | G14_Project1_xv6CustomizeSystemCalls/xv6-riscv/kernel/sysproc.c:206-216 | However many handlers run one after another, the first return outside a handler has the interrupted context |
| SignalModel.SignalTransparency | G14_Project1_xv6CustomizeSystemCalls/xv6-riscv/kernel/trap.c:37-111 | A trap that delivers a signal resumes, in the end, the context it would have resumed |
| SignalCode.Process.constructor | G14_Project1_xv6CustomizeSystemCalls/xv6-riscv/kernel/proc.c:129-135 | A new process has no signal pending, no handler and handles none |
| SignalCode.Process.Deliver | G14_Project1_xv6CustomizeSystemCalls/xv6-riscv/kernel/trap.c:87-102 | The delivery loop computes the delivery that the model describes |
| SignalCode.Process.Signal | G14_Project1_xv6CustomizeSystemCalls/xv6-riscv/kernel/sysproc.c:188-204 | Registers the handler, or refuses a number outside 0..31, with the result for a0 (SignalModel.RegisterSets) |
| SignalCode.Process.Sigreturn | G14_Project1_xv6CustomizeSystemCalls/xv6-riscv/kernel/sysproc.c:206-216 | Restores the frame and leaves the handler; its result is the restored a0 |
| SignalCode.Process.Sigsend | G14_Project1_xv6CustomizeSystemCalls/xv6-riscv/kernel/proc.c:884-899 | Marks the signal sent as pending and changes nothing else; other numbers are refused (SignalModel.SentMarks) |
| SignalCode.Process.Usertrap | G14_Project1_xv6CustomizeSystemCalls/xv6-riscv/kernel/trap.c:37-111 | The whole trap is the model's trap |
| ShellModel.GetTok | G14_Project1_xv6CustomizeSystemCalls/xv6-riscv/user/sh.c:271-314 | The cursor moves forward, past a token unless the input is at its end |
| ShellModel.ParseRedirs | G14_Project1_xv6CustomizeSystemCalls/xv6-riscv/user/sh.c:380-403 | Every file named is a word of the input; the cursor moves forward |
| ShellModel.ParseLine | G14_Project1_xv6CustomizeSystemCalls/xv6-riscv/user/sh.c:350-365 | Terminates on every input; every word of the tree is a maximal run of word characters of the input |
| ShellModel.ArgsRound | G14_Project1_xv6CustomizeSystemCalls/xv6-riscv/user/sh.c:421-452 | The printed words of a command are read back one by one |
| ShellModel.SimpleRound | G14_Project1_xv6CustomizeSystemCalls/xv6-riscv/user/sh.c:421-452 | A printed simple command is read back whole |
| ShellModel.BlockRound | G14_Project1_xv6CustomizeSystemCalls/xv6-riscv/user/sh.c:405-419 | A parenthesised command that has been read is wrapped in exactly the redirections behind it |
| ShellModel.RedirRound | G14_Project1_xv6CustomizeSystemCalls/xv6-riscv/user/sh.c:380-403 | A printed redirection is read back with its file, mode and descriptor |
| ShellModel.PipeRound | G14_Project1_xv6CustomizeSystemCalls/xv6-riscv/user/sh.c:367-378 | A printed pipe is read back |
| ShellModel.ListRound | G14_Project1_xv6CustomizeSystemCalls/xv6-riscv/user/sh.c:350-365 | A printed list is read back |
| ShellModel.BackRound | G14_Project1_xv6CustomizeSystemCalls/xv6-riscv/user/sh.c:350-365 | A printed background command is read back |
| ShellModel.LineRound | G14_Project1_xv6CustomizeSystemCalls/xv6-riscv/user/sh.c:350-365 | Parsing a printed tree gives the tree and stops where its text ends |
| ShellModel.ParsePrint | G14_Project1_xv6CustomizeSystemCalls/xv6-riscv/user/sh.c:333-348 | For every tree with at most nine words to a command, parsing its fully parenthesised printout returns the tree and uses all input |
| ShellModel.ParsedIsPrintable | G14_Project1_xv6CustomizeSystemCalls/xv6-riscv/user/sh.c:333-348 | Every tree the parser builds has at most nine words to a command and opens files in one of the three ways, so it can be printed |
| ShellModel.PrintParse | G14_Project1_xv6CustomizeSystemCalls/xv6-riscv/user/sh.c:333-348 | For every accepted input, printing its tree and parsing the printout gives the same tree |
| ShellGrammar.ToksCover | G14_Project1_xv6CustomizeSystemCalls/xv6-riscv/user/sh.c:271-314 | The tokens are symbols, >> or maximal words, in order and without overlap, and everything outside them is white space |
| ShellGrammar.ItemsAreSimple | G14_Project1_xv6CustomizeSystemCalls/xv6-riscv/user/sh.c:421-452 | Words and redirections in any order make a simple command: the words are its arguments and the last redirection is the outermost |
| ShellGrammar.LineSound | G14_Project1_xv6CustomizeSystemCalls/xv6-riscv/user/sh.c:350-365 | What the parser has read, for every accepted prefix of every input, derives its tree in the grammar, each token used once |
| ShellGrammar.LineComplete | G14_Project1_xv6CustomizeSystemCalls/xv6-riscv/user/sh.c:350-365 | Every line of the grammar, followed by the end or a closing parenthesis, is read as its tree, up to its end |
| ShellGrammar.ParserIsGrammar | G14_Project1_xv6CustomizeSystemCalls/xv6-riscv/user/sh.c:333-348 | For every input and every tree, the parser returns the tree if and only if the tokens of the whole input derive it: words with redirections between them, blocks in parentheses with redirections behind them, pipes to the right, then any &, then ; |
| ShellGrammar.Unambiguous | G14_Project1_xv6CustomizeSystemCalls/xv6-riscv/user/sh.c:333-348 | The tokens of an input derive at most one tree |
| ShellCode.GetToken | G14_Project1_xv6CustomizeSystemCalls/xv6-riscv/user/sh.c:271-314 | The loops compute the model's token |
| ShellCode.Peek | G14_Project1_xv6CustomizeSystemCalls/xv6-riscv/user/sh.c:316-326 | The loop computes the model's look-ahead |
| ShellCode.Parseredirs | G14_Project1_xv6CustomizeSystemCalls/xv6-riscv/user/sh.c:380-403 | The loop computes the model's redirections, or the panic |
| ShellCode.Parseargs | G14_Project1_xv6CustomizeSystemCalls/xv6-riscv/user/sh.c:435-451 | The loop of parseexec computes the model's words and redirections, or the panic |
| ShellCode.Parseexec | G14_Project1_xv6CustomizeSystemCalls/xv6-riscv/user/sh.c:421-452 | Computes the model's tree or panic; the tokens between the two cursors, redirections behind words included, are the command returned |
| ShellCode.Parseblock | G14_Project1_xv6CustomizeSystemCalls/xv6-riscv/user/sh.c:405-419 | Computes the model's tree or panic |
| ShellCode.Parsepipe | G14_Project1_xv6CustomizeSystemCalls/xv6-riscv/user/sh.c:367-378 | Computes the model's tree or panic |
| ShellCode.Parseline | G14_Project1_xv6CustomizeSystemCalls/xv6-riscv/user/sh.c:350-365 | Computes the model's tree or panic, with the loop over & |
| ShellCode.Nulterminate | G14_Project1_xv6CustomizeSystemCalls/xv6-riscv/user/sh.c:455-499 | A NUL is at the end of every word of the tree and no other character changed |
| ShellCode.ReadsAsToken | G14_Project1_xv6CustomizeSystemCalls/xv6-riscv/user/sh.c:455-499 | After termination each word, read as a C string, is exactly its token |
| ShellCode.Parsecmd | G14_Project1_xv6CustomizeSystemCalls/xv6-riscv/user/sh.c:333-348 | On any NUL-terminated buffer: the tree that the tokens derive, or a panic if and only if there is none; every argument and file reads as its token; a panic leaves the buffer alone |
| VirtioModel.NoThreeLive | G14_Project1_xv6CustomizeSystemCalls/xv6-riscv/kernel/virtio_disk.c:201-213 | No three requests are live at once |
| VirtioModel.AtMostTwo | G14_Project1_xv6CustomizeSystemCalls/xv6-riscv/kernel/virtio_disk.c:215-292 | Neither ring ever holds more than two entries |
| VirtioModel.SubmitPartition | G14_Project1_xv6CustomizeSystemCalls/xv6-riscv/kernel/virtio_disk.c:215-292 | Three free descriptors become the chain of a new request, disjoint from all others |
| VirtioModel.FreePartition | G14_Project1_xv6CustomizeSystemCalls/xv6-riscv/kernel/virtio_disk.c:185-197 | The descriptors of a finished request become free, and were not before |
| VirtioModel.CountersDiffer | G14_Project1_xv6CustomizeSystemCalls/xv6-riscv/kernel/virtio_disk.c:312-323 | The wrapping counters are equal exactly when nothing waits |
| VirtioModel.PushCarries | G14_Project1_xv6CustomizeSystemCalls/xv6-riscv/kernel/virtio_disk.c:271-277 | Adding an entry at a wrapping counter overwrites none that waits |
| VirtioModel.PopCarries | G14_Project1_xv6CustomizeSystemCalls/xv6-riscv/kernel/virtio_disk.c:312-323 | The consumer sees an entry exactly when there is one, and it is the oldest |
| VirtioModel.RoomForAnother | G14_Project1_xv6CustomizeSystemCalls/xv6-riscv/kernel/virtio_disk.c:201-213 | With at most one live request three descriptors are free |
| VirtioCode.Disk.constructor | G14_Project1_xv6CustomizeSystemCalls/xv6-riscv/kernel/virtio_disk.c:61-153 | All descriptors are free and both rings are empty |
| VirtioCode.Disk.AllocDesc | G14_Project1_xv6CustomizeSystemCalls/xv6-riscv/kernel/virtio_disk.c:156-166 | Takes a free descriptor, or reports that none is free |
| VirtioCode.Disk.FreeDesc | G14_Project1_xv6CustomizeSystemCalls/xv6-riscv/kernel/virtio_disk.c:169-182 | Frees and clears one descriptor; both panics are excluded where it is called |
| VirtioCode.Disk.Alloc3Desc | G14_Project1_xv6CustomizeSystemCalls/xv6-riscv/kernel/virtio_disk.c:201-213 | Takes three different free descriptors if and only if there are three; otherwise the free map is as before |
| VirtioCode.Disk.Submit | G14_Project1_xv6CustomizeSystemCalls/xv6-riscv/kernel/virtio_disk.c:215-292 | Queues the request with its buffer marked busy, or must wait, which happens only with two requests live |
| VirtioCode.Disk.Take | G14_Project1_xv6CustomizeSystemCalls/xv6-riscv/kernel/virtio_disk.c:271-277 | The device gets the oldest queued request |
| VirtioCode.Disk.Complete | G14_Project1_xv6CustomizeSystemCalls/xv6-riscv/kernel/virtio_disk.c:215-292 | A device that follows the descriptors, going on only where NEXT is set and storing only where WRITE is set, moves the right block between the right buffer and sector, or on failure touches nothing else, and reports head and status |
| VirtioCode.Disk.Intr | G14_Project1_xv6CustomizeSystemCalls/xv6-riscv/kernel/virtio_disk.c:294-327 | Whatever the device does between the iterations, reading requests and completing them, the loop ends; it panics exactly when a request that completed before or during it has failed; otherwise every completion has been seen, exactly the buffers of the requests seen are cleared, and data read before is intact |
| VirtioCode.Disk.FreeChain | G14_Project1_xv6CustomizeSystemCalls/xv6-riscv/kernel/virtio_disk.c:185-197 | Frees exactly the three descriptors of the chain |
| VirtioCode.Disk.Finish | G14_Project1_xv6CustomizeSystemCalls/xv6-riscv/kernel/virtio_disk.c:287-291 | The finished request disappears and its descriptors are free again |
| Pipes.Counters | G14_Project1_xv6CustomizeSystemCalls/xv6-riscv/kernel/pipe.c:76-103 | The wrapping tests for empty and full are exact |
| Pipes.Channel.constructor | G14_Project1_xv6CustomizeSystemCalls/xv6-riscv/kernel/pipe.c:22-56 | A new pipe is empty and open at both ends |
| Pipes.Channel.Store | G14_Project1_xv6CustomizeSystemCalls/xv6-riscv/kernel/pipe.c:95-96 | The byte is appended to what was accepted and overwrites nothing undelivered |
| Pipes.Channel.Write | G14_Project1_xv6CustomizeSystemCalls/xv6-riscv/kernel/pipe.c:76-103 | Accepts exactly the bytes it counts, in order; sleeps only when full with a reader; -1 only with the reader gone or the caller killed; a short count only at a fault |
| Pipes.Channel.Read | G14_Project1_xv6CustomizeSystemCalls/xv6-riscv/kernel/pipe.c:105-134 | Delivers the next accepted bytes, so what is delivered is a prefix of what was accepted; 0 for n > 0 means the writer is gone and everything was delivered; sleeps only when empty with a writer |
| Pipes.Channel.Close | G14_Project1_xv6CustomizeSystemCalls/xv6-riscv/kernel/pipe.c:58-74 | Closes one end and frees the pipe exactly when both are closed |
| Grep.ShowParse | G14_Project1_xv6CustomizeSystemCalls/xv6-riscv/user/grep.c:85-96 | Every string is the text of the pattern it is read as, with c* one item, a final $ the end, and nothing else special |
| Grep.ParseShow | G14_Project1_xv6CustomizeSystemCalls/xv6-riscv/user/grep.c:85-96 | Every pattern in which no single character is followed by * and no final $ is a character is read back from its text |
| Grep.Extend | G14_Project1_xv6CustomizeSystemCalls/xv6-riscv/user/grep.c:85-96 | A first piece and a match of the rest make a match of the whole pattern |
| Grep.Shrink | G14_Project1_xv6CustomizeSystemCalls/xv6-riscv/user/grep.c:85-96 | A match of a pattern splits into a first piece and a match of the rest |
| Grep.MatchHere | G14_Project1_xv6CustomizeSystemCalls/xv6-riscv/user/grep.c:85-96 | True exactly when the pattern matches at the start of the text, by the declarative meaning of its items; terminates |
| Grep.MatchStar | G14_Project1_xv6CustomizeSystemCalls/xv6-riscv/user/grep.c:99-106 | True exactly when some number of the character and then the rest match; terminates |
| Grep.Match | G14_Project1_xv6CustomizeSystemCalls/xv6-riscv/user/grep.c:72-82 | True exactly when some place of the text matches, the start alone after ^ |
| Rand.DoRand | G14_Project1_xv6CustomizeSystemCalls/xv6-riscv/user/grind.c:16-40 | Computes 16807 x mod (2^31 - 1) with x from the seed and stays in its range |
| Rand.WithinThirtyOneBits | G14_Project1_xv6CustomizeSystemCalls/xv6-riscv/user/grind.c:20-33 | Neither product of the split nor their difference exceeds 2^31 - 1 in magnitude |
| Rand.StepIsBijection | G14_Project1_xv6CustomizeSystemCalls/xv6-riscv/user/grind.c:16-40 | The step is a bijection on the range: the inverse multiplier undoes it on both sides |

## Left out

- Directories, path names, link counts, inode reference counts and iput: the inode layer is modelled from bmap up to writei, itrunc and filewrite.
- The error path of writei when copying from user memory fails: sources of writes are kernel bytes, so a piece is always complete.
- Mkfs.Image.Build: takes at most NINODES - 2 files; the bytes of the superblock and the host's file reading are not modelled.
- Mkfs.Image.Ialloc: is called while inodes are left; mkfs does not count its files against NINODES, and what it would write past the inode blocks is not modelled.
- BufferCache.Bcache.Modify: a client holds the lock, and before it releases a changed buffer it has written or pinned it, as the callers in this kernel do.
- BufferCache.Bcache.Bunpin: whoever removes the last pin of a changed buffer has written it or holds its lock, as install_trans does.
- BufferCache: waiting for a buffer's sleep-lock is not modelled; a locked buffer is one whose lock was obtained.
- VmCode.Machine.Mappages: works in whole pages and on at least one, so the panics about alignment and size zero do not arise.
- VmCode.Machine.Uvmcopy: the child's pages below the size are unmapped before the call; fork copies into a table it has just made.
- VmCode: copyin and copyout, which look a page up, call vmfault if it is not there, and copy bytes page by page, and copyinstr, which does without vmfault, are not modelled; nor is the kernel's own page table.
- HeapCode.Heap.Malloc: sbrk returns fresh memory above everything before, and sizes do not overflow its int argument.
- HeapCode.Heap.Free: is called with a block that malloc returned and that has not been freed since.
- ProcModel: weak memory, interrupts inside critical sections and the scheduler's choice of process are not modelled; unlocked updates of fork_count are single steps; init does not exit.
- ProcModel: message bytes and lengths of the mailbox, exit statuses, open files and memory of processes are not modelled, only whether a message is ready.
- ProcModel.OwnKeeps: a killed process that sleeps for another reason is woken by kkill here too, but no claim is made that it always wakes.
- SignalModel.SignalTransparency: a sigreturn outside a handler, or in a child forked inside one, restores whatever was saved before and is not covered.
- ShellCode.Parsecmd: tree nodes are values; that parseexec appends arguments to a node already wrapped by redirections is modelled by collecting both and wrapping at the end.
- The shell's runcmd, cd and prompt, and grep's line buffer: input, output and system calls.
- VirtioCode.Disk.Complete: the device completes, in any order, only what it has taken; memory barriers and the notify register are not modelled.
- VirtioCode.Disk.Submit: the caller holds the buffer's lock, so no other live request uses it.
- Pipes.Channel.Write: where copyin fails and where a kill is noticed are parameters; wakeups are not modelled.
- The repository's own README describes kernel/thread.c, which is not part of this model; threads are modelled as the forks that thread_fork makes.
- Boot, assembly, traps from kernel mode, the console, UART and PLIC drivers, which drive hardware; exec's loading of ELF files and argument fetching, which copy between images; the small user utilities, which read arguments and make one or two system calls.
- FsSteps: itrunc gives up all block numbers in one step, before it frees the first block; no step of another depends on the inode it has locked. That the methods of FsCode.FileSystem are sequences of these steps is not proved; CrashSafety takes them as whole calls.
- CrashSafety.ActSafe: an operation unlocks its inodes before end_op, as the callers in this kernel do; inodes locked only for reading are not recorded.
