# A verified model of LOSS-2025's file system, processes, screen and paths

The project models four parts of the operating system and proves what they keep.

* **The EXT2 driver** (`src/filesystem/ext2.c`): allocation bitmaps with cached counters, the mapping tree of direct,
  single-indirect and double-indirect blocks, and the byte-level chain of directory records. The disk is a sequence of
  blocks of bytes; `Volume` is that disk together with the two caches `superBlock` and `bgdtCache`. Every operation is
  a function on `Volume` that takes the source's branches in the source's order, and class `Driver.Ext2` performs the
  same steps with the source's loops and fields; each of its methods is proved equal to its function. The theorems are
  about the functions, so they hold of the class.
* **Processes, scheduling and page frames** (`process.c`, `scheduler.c`, `paging.c`, timer and calls 9 to 11): a state
  machine over `Kernel`, and classes `Paging.PageManager` and `ProcessManager.Manager` proved equal to it.
* **Planar VGA** (`graphics.c`): four planes of bytes; the masked block fill against pixel-by-pixel drawing.
* **Paths** (`cd.c`, `user-shell.c`): `split_path`, the walk of `cd`, and the printed path, on the same `Volume`.

## The main results

* *Abstraction.* `Invariant.FS` is what a sound volume stands for: the blocks of each inode in taking order, the owner
  of each used block, the bytes of each file, the place of the one entry naming each inode. `Invariant.Inv` says that
  the bytes on disk and in both caches are exactly such a file system: each marked block is metadata or owned once,
  at one position; each free inode slot is zero; each directory block is a chain of aligned records ending at byte
  512; and blocks 1 and 2 hold the caches. `Runs.Sane` adds directory counts and the tree of "..".
* *Exact safety.* `write` and `delete` do not always keep this. `Writing.WriteSafe` and `Deletion.DeleteSafe` with
  `Runs.LeavesNoOrphans` are conditions a caller can check beforehand, and the state after the call is sound *if and
  only if* they hold (`Exactness.WriteSafeExactly`, `DeleteExactness.DeleteSafeExactly`). Each way of going wrong has
  its own lemma: a new directory with no free block left lands in a fixed block somebody else owns; a growing parent
  may pass twelve blocks, leak its new block when no inode is left, or wipe out the new inode by writing back an old
  copy of a shared table block; deleting "." or ".." frees a directory that is still named; deleting a directory whose
  later blocks hold entries leaves orphans, because only the first block is inspected.
* *Each of these happens.* `Hazards` and `Exhaustion` give, for each, a run of safe operations from a freshly formatted
  image and one more request that spoils the volume: deleting "." of the root, two names of 255 bytes in the root, a
  file as large as the disk followed by a directory, twelve long names followed by a thirteenth, 895 files and
  directories followed by a name that does not fit, and deleting a directory whose second block still names a file.
* *Runs.* From any image as the makefile produces it, every run of safe operations stays sane and has true counters,
  and initialising again finds the signature, does not format, and gives the same state. So it does after one `write`
  or `delete` that returns 0, safe or not: neither writes block 0, and both end synchronised. A device is formatted
  exactly when its first two bytes are not those of the signature.
* *What callers see.* A name resolves to the first entry of an ordered list; writing and deleting change the meaning
  of one name and of nothing else; a file reads back whole if and only if its blocks were free where the driver looks;
  writing into a hole and deleting again restores the caches and the bytes of every block in use. `Answers` says for
  every request what `write`, `delete` and `read_directory` return, in terms of names, free blocks and free inodes.
* *Processes.* Over every run from boot, whatever sizes are asked for, no frame is mapped twice, the free frames are
  what the creations leave of thirty, at most one process runs, a waiting process is reached within sixteen switches,
  any run with `k` switches over `k` steady processes runs each once, and a switch hands over the context recorded
  last, to a new process the one it was created with. No step changes the directory of a process that outlives it. The
  pool of directories is empty exactly when those of the processes and those taken for executables that could not be
  read make thirty-two. A size that wraps in 32 bits passes the check on memory with no frame left: a run to such a
  creation is shown, and at most fifteen creations pass exactly when each took its two frames.
* *Screen.* The block fill equals sixty-four pixels at every alignment; clearing equals drawing each pixel.
* *Paths.* `split_path` undoes the join exactly for plain names within its limit; `cd` on any path ends where its
  names lead from the current directory or the root, or stays; on the printed path of a directory it leads there
  exactly when that is at most sixteen levels deep, every name on the way can be printed and none is shadowed. A run
  to a directory where it does not return is shown.

## Where the code decides

* `GROUPS_COUNT` is an unparenthesised macro, so the volume has 8 groups of 256 blocks while the superblock counts
  8192 blocks; its free-block count exceeds the sum over groups by 6144 for ever.
* The scans for a free block are written out eight times in the driver. The two outside file allocation end in their own
  ways, on a flag and on a block number still zero, and are methods of their own; the six of file allocation are one
  method, `AllocateBlock`. All three are proved to take the same block.
* The comments in the source give other return codes than the code; the model follows the code.
* A record's length is never zero in a chain, so the source's test for it never ends a scan in a sound block. The test
  `entry->inode == 0` in `delete` cannot succeed at a record that was just found live.
* `is_directory_empty` reads a word past the block it has just read when ".." fills that block; the word is the
  parameter `stack`. It is taken for empty exactly when the block holds the dots only and that word is zero.
* The walkers of the shell read a directory into a buffer of 16 blocks of which only the first is filled in; the rest is
  the parameter of type `Paths.Residue`. For directories larger than a block, what `read_directory` copies past its own
  buffer is `spill`.
* `write` returns 0 for a file cut short by a full disk; `Effects.ReadAfterWrite` says how much of it there is.
* Call 10 falls through to call 11 only if the switch returned, which it does not.

## Model

| member | source | states |
|---|---|---|
| Bytes.SetBitSpec | src/filesystem/ext2.c:92-96 | setting a bitmap bit changes that bit only |
| Layout.ClearCountFlip | src/filesystem/ext2.c:96-100 | taking one clear bit lowers the number of clear bits by exactly one |
| Layout.HeaderRead | src/header/filesystem/ext2.h:158-180 | mode, size and block count of an inode at bytes 0, 2 and 6 of its slot |
| Layout.PointerRead | src/header/filesystem/ext2.h:158-180 | its block numbers from byte 10 on |
| Layout.PutInodeUndone | src/filesystem/ext2.c:1381-1391 | restoring the former inode of a slot restores the table block byte for byte |
| Metadata.RemountIsInvisible | src/filesystem/ext2.c:257-262 | mounting a disk whose blocks 1 and 2 hold the caches rebuilds both exactly |
| Volume.FirstFreeSpec | src/filesystem/ext2.c:86-111 | the block scan returns the lowest clear bit from its start on, and fails exactly when there is none |
| FileTree.NeededExact | src/filesystem/ext2.c:1106-1379 | the number of blocks a file takes, pointer blocks included, is the least that holds its data |
| FileTree.ChunkBytes | src/filesystem/ext2.c:1136-1141 | a data block holds its part of the file, the last one zeros behind it |
| Accounting.TakenOne | src/filesystem/ext2.c:1114-1133 | one allocation extends the ascending list of first-fit blocks and keeps all counters true |
| Allocation.AllocBlocksSpec | src/filesystem/ext2.c:1106-1379 | allocation takes exactly the first blocks needed that are free at or after the group, or all there are; inode and pointer blocks spell them and each data block holds its part |
| Reading.ReadNodeSpec | src/filesystem/ext2.c:443-512 | following the tree returns the file's bytes as far as blocks were found for them |
| Reclaim.FreeTreeSpec | src/filesystem/ext2.c:854-961 | releasing a tree clears exactly the bits of its blocks, wherever a full disk cut it short |
| Directory.FindNameSpec | src/filesystem/ext2.c:401-425 | the record scan finds the first live entry of the name in list order, or there is none |
| Directory.ScanForHoleSpec | src/filesystem/ext2.c:536-563 | the scan of `write` stops at the name itself or at the first live record with room, having passed no entry of the name |
| Directory.InsertSpec | src/filesystem/ext2.c:589-599 | inserting adds one entry right after the record that made room and keeps the chain and all other entries in order |
| Directory.RemoveSpec | src/filesystem/ext2.c:784-799 | removing takes exactly that entry out of the list and keeps the chain |
| Directory.InsertUndone | src/filesystem/ext2.c:589-599 | removing a freshly inserted record restores the block byte for byte |
| Directory.NewDirBlockSpec | src/filesystem/ext2.c:124-149 | a new directory block is a chain of "." and ".." only |
| Directory.NewEntryBlockSpec | src/filesystem/ext2.c:639-678 | the block a directory grows by is a chain of the one new entry |
| Invariant.HoldsAfterSync | src/filesystem/ext2.c:71-79 | synchronising keeps the volume sound and makes the disk agree with the caches |
| Creation.AdoptHolds | src/filesystem/ext2.c:566-588 | a fresh inode with sound content joins a sound volume: every block still has one owner |
| Creation.MakeDirHolds | src/filesystem/ext2.c:81-154 | with a free block at or after its group, making a directory keeps the volume sound |
| Naming.InsertHolds | src/filesystem/ext2.c:589-602 | naming a nameless inode in the slack of a record keeps the volume sound |
| Naming.RemoveHolds | src/filesystem/ext2.c:784-803 | removing the entry of an inode that went closes the gap it left |
| Growth.AttachHolds | src/filesystem/ext2.c:638-681 | the parent takes over the new block and with it the new name |
| Writing.WriteKeepsInv | src/filesystem/ext2.c:515-683 | a safe `write` keeps the volume sound; one that fails changes nothing |
| Deletion.DeallocNodeSpec | src/filesystem/ext2.c:836-975 | deallocation gives back exactly the inode and the blocks of its tree |
| Deletion.DeleteKeepsInv | src/filesystem/ext2.c:686-806 | deleting anything but the dots keeps the volume sound; a refusal changes nothing |
| Format.FormatIsSound | src/filesystem/ext2.c:167-250 | formatting a blank image and mounting it gives a sound volume with an empty root |
| Observing.FindEntryIsLookup | src/filesystem/ext2.c:401-425 | the block-by-block scan is first-match lookup in the directory's ordered list of names |
| Observing.ReadSpec | src/filesystem/ext2.c:377-513 | `read` answers from the ordered list of names and the file's bytes, with its four refusals |
| Observing.InsertedResolves | src/filesystem/ext2.c:536-602 | in the list the new name resolves to the new entry, every other name as before, later duplicates included |
| Observing.RemovedResolves | src/filesystem/ext2.c:712-799 | in the list the removed name resolves to the next entry it shadowed or to nothing, every other name as before |
| WriteEffects.TakenCount | src/filesystem/ext2.c:1115-1154 | first fit takes every free block from the group on before it gives up |
| WriteEffects.WriteEffect | src/filesystem/ext2.c:515-683 | a successful `write` adds exactly one name, one inode and its contents |
| Effects.ReadMeaning | src/filesystem/ext2.c:377-513 | `read` depends on the abstract file system only |
| Effects.ReadAfterWrite | src/filesystem/ext2.c:443-512 | a written file reads back as the first blocks of its data, as many as were free where the driver looks |
| Effects.ReadsBackWhole | src/filesystem/ext2.c:443-512 | it reads back whole if and only if it fitted |
| Hazards.CutShortHazard | src/filesystem/ext2.c:1106-1379 | in the freshly formatted root `write` returns 0 for any file of 1 MiB or more, but it does not read back |
| Effects.WriteKeepsReads | src/filesystem/ext2.c:515-683 | every other name reads the same bytes after a `write` |
| Effects.WriteResolves | src/filesystem/ext2.c:536-606 | after `write` returns 0 the name stands for the new inode, all other names for what they did |
| DeleteEffects.DeleteEffect | src/filesystem/ext2.c:686-806 | a successful `delete` removes exactly one name and one inode |
| DeleteEffects.DeleteResolves | src/filesystem/ext2.c:712-799 | after `delete` the name stands for the next shadowed entry or nothing, all other names for what they did |
| DeleteEffects.DeleteKeepsReads | src/filesystem/ext2.c:686-806 | every other name reads the same bytes after a `delete` |
| DeleteEffects.DeletedIsGone | src/filesystem/ext2.c:686-806 | a deleted name that shadowed nothing is not found any more |
| DeleteEffects.EmptyMeans | src/filesystem/ext2.c:265-288 | a directory is taken for empty exactly when its first block holds the dots only and the word read past it is zero |
| Undo.WriteUndone | src/filesystem/ext2.c:557-602 | writing into a hole and deleting again succeeds and restores caches and all blocks in use byte for byte, of blocks 1 and 2 the part that holds the caches |
| DirCounts.DirsBounded | src/filesystem/ext2.c:570-575 | the directory count of a group never exceeds its 112 inodes, so it never wraps |
| DirCounts.WriteKeepsDirCounts | src/filesystem/ext2.c:570-575 | `write` keeps each group's count equal to the directories in it |
| DirCounts.DeleteKeepsDirCounts | src/filesystem/ext2.c:846-852 | so does `delete` |
| TreeShape.NamedOnce | src/filesystem/ext2.c:132-147 | each inode but the root is named by exactly one live entry, a directory in the directory its ".." names |
| TreeShape.ReachesRoot | src/filesystem/ext2.c:132-147 | following ".." from any directory reaches inode 1 |
| Runs.WriteKeepsSane | src/filesystem/ext2.c:515-683 | a safe `write` keeps soundness, directory counts and tree shape, also across inode reuse |
| Runs.DeleteKeepsSane | src/filesystem/ext2.c:686-806 | so does a safe `delete` that leaves no orphans |
| Runs.ReachableIsSane | src/filesystem/ext2.c:167-263 | every state reached from a freshly formatted image by safe operations is sane |
| Runs.RemountIsIdentity | src/filesystem/ext2.c:257-262 | mounting any reached state gives the same state, caches included |
| Remount.WriteKeepsBoot | src/filesystem/ext2.c:515-683 | no `write`, safe or not, touches block 0, where the signature is |
| Remount.DeleteKeepsBoot | src/filesystem/ext2.c:686-806 | nor does a `delete` |
| Remount.WriteSyncs | src/filesystem/ext2.c:515-683 | a `write` that returns 0 leaves both caches on the disk, safe or not |
| Remount.DeleteSyncs | src/filesystem/ext2.c:686-806 | so does a `delete` |
| Remount.InitialiseAfterWrite | src/filesystem/ext2.c:156-165 | after any `write` that returns 0 on a volume with the signature, initialising again does not format and gives the same state |
| Remount.InitialiseAfterDelete | src/filesystem/ext2.c:156-165 | the same after a `delete` |
| Remount.InitialiseAfterRun | src/filesystem/ext2.c:252-263 | the same after any safe run, which also keeps the signature |
| Remount.InitialiseIsIdentity | src/filesystem/ext2.c:252-263 | after any safe run from a freshly formatted device, initialising again finds the signature and gives the same state |
| Remount.InitialiseExactly | src/filesystem/ext2.c:156-165 | a device is formatted exactly when its first two bytes are not those of the signature; either way both caches are then read from it |
| Remount.FirstBoot | makefile:79-80 | initialising the zeroed image formats it: block 0 carries the signature, the state is sane and the root lists the dots only |
| Remount.FormattedHeaders | src/filesystem/ext2.c:173-217 | the fields of the superblock and of the eight group descriptors on a formatted device, each at its byte offset |
| Remount.FormattedBitmaps | src/filesystem/ext2.c:230-249 | the bitmaps of a formatted device, byte by byte |
| Runs.CountersAreTrue | src/filesystem/ext2.c:179-217 | in every reached state group counters are the clear bits, free inodes sum up, free blocks exceed the sum by 6144 |
| FirstUse.ZeroImageIsBlank | makefile:79-80 | the zeroed image file is a device that formatting expects, so the runs above exist |
| FirstUse.FreshAccepts | src/filesystem/ext2.c:515-607 | a fresh volume takes any file or directory in its root under any name but the dots: the write is safe and returns 0 |
| Exactness.FallbackBreaks | src/filesystem/ext2.c:113-122 | with no free block a new directory takes over a block that has an owner already |
| Exactness.FallbackIsData | src/filesystem/ext2.c:113-122 | that block is the first data block of the new inode's group |
| Exactness.ThirteenthBreaks | src/filesystem/ext2.c:640-642 | a thirteenth directory block leaves no sound volume |
| Exactness.LeakBreaks | src/filesystem/ext2.c:610-650 | the new directory block leaks when no inode is left |
| Exactness.SharedTableBreaks | src/filesystem/ext2.c:680 | writing back the stale table block wipes out a new inode that shares it |
| Exactness.WriteSafeExactly | src/filesystem/ext2.c:515-683 | `write` leads to a sound volume if and only if its safety condition held before |
| DeleteExactness.DotBreaks | src/filesystem/ext2.c:757-772 | deleting "." or ".." always leaves an unsound volume |
| DeleteExactness.OrphanBreaks | src/filesystem/ext2.c:265-288 | deleting a directory whose later blocks hold entries leaves no sound tree |
| DeleteExactness.RefusedExactly | src/filesystem/ext2.c:686-782 | `delete` fails exactly when the parent is no directory, the name stands for nothing or for the other type, or the directory does not count as empty |
| DeleteExactness.DeleteSafeExactly | src/filesystem/ext2.c:686-806 | `delete` leads to a sound volume and tree if and only if it is refused or its safety condition held before |
| Answers.WriteCodeExactly | src/filesystem/ext2.c:515-683 | `write` answers 2 exactly when the parent is no directory; 1 when an entry of the name stands before the first entry with room, over all blocks; -1 when otherwise no inode is free, or there is no room and no block is free from the parent's group on; 0 in all other cases |
| Answers.WriteMakes | src/filesystem/ext2.c:533-594 | what a successful `write` makes is an empty directory exactly when it got no data and the directory flag, and a file of the data otherwise |
| Answers.DeleteCodeExactly | src/filesystem/ext2.c:686-782 | `delete` answers -1 exactly when the parent is no directory; 1 when the name stands for nothing or for the other type; 2 for a directory that is not taken for empty; 0 otherwise |
| Answers.DirectoryReadSpec | src/filesystem/ext2.c:290-375 | `read_directory` of any name with any buffer: -1 when the parent is no directory, 2 when the name stands for nothing, 1 when it stands for no directory, -1 when the buffer is smaller than 512 times its blocks; else 0 and its first block |
| Hazards.ReachedIsRun | src/filesystem/ext2.c:167-263 | the states called reached in the rows below are exactly those to which some run of safe operations leads from the formatted image |
| Hazards.DotHazard | src/filesystem/ext2.c:757-772 | in the freshly formatted root, deleting "." returns 0 and leaves no sound volume |
| Hazards.SharedTableHazard | src/filesystem/ext2.c:680 | after one file with a name of 255 bytes in the root, a second returns 0 and leaves no sound volume |
| Hazards.FullDiskHazard | src/filesystem/ext2.c:113-122 | after a file that takes every free block, making a directory returns 0 and leaves no sound volume |
| Hazards.OrphanHazard | src/filesystem/ext2.c:265-288 | a reached directory whose second block names a file counts as empty: deleting it returns 0 and leaves no sound tree |
| Exhaustion.ThirteenthHazard | src/filesystem/ext2.c:640-642 | after twelve long names in the root a thirteenth returns 0 and leaves no sound volume |
| Exhaustion.LeakHazard | src/filesystem/ext2.c:610-650 | with all 896 inodes reached, a name that does not fit its directory fails and leaves no sound volume |
| Stepping.StepInHole | src/filesystem/ext2.c:536-606 | when the list of the parent's first block has room, `write` is safe, returns 0 and changes the lists and trees as said |
| Stepping.StepGrow | src/filesystem/ext2.c:610-681 | when no block has room, `write` of a file is safe below twelve blocks with a free block and an inode of another table block, and adds a block naming it |
| Stepping.StepDelete | src/filesystem/ext2.c:712-806 | deleting a file named in the first block is safe, returns 0 and takes that entry out of the list |
| Driver.ScanBitmap | src/filesystem/ext2.c:91-106 | the bit loops return the lowest clear bit below the limit, or the limit |
| Driver.FindInBlock | src/filesystem/ext2.c:722-741 | the record loop returns the first live entry of the name and the record before it |
| Driver.ScanBlock | src/filesystem/ext2.c:541-564 | the record loop of `write` is its specification |
| Driver.Ext2.AllocateBlock | src/filesystem/ext2.c:1114-1154 | the scans for file blocks take the lowest free block at or after the group, that bit and the two counters only; they fail exactly when none is free |
| Driver.Ext2.TakeDirectoryBlock | src/filesystem/ext2.c:86-111 | the scan that ends on a flag takes the same block, or reports that none is free |
| Driver.Ext2.TakeGrowthBlock | src/filesystem/ext2.c:610-637 | the scan that ends on a nonzero block number takes the same block, since block 0 is never free |
| Driver.Ext2.SyncMetadata | src/filesystem/ext2.c:71-79 | blocks 1 and 2 get the bytes of both caches |
| Driver.Ext2.AllocateNode | src/filesystem/ext2.c:808-834 | takes the lowest free inode of all groups, or returns 0 with nothing changed |
| Driver.Ext2.AllocateDirect | src/filesystem/ext2.c:1112-1154 | equals the direct stage of the specification |
| Driver.Ext2.AllocateIndirect | src/filesystem/ext2.c:1156-1243 | equals the single-indirect stage |
| Driver.Ext2.AllocateDouble | src/filesystem/ext2.c:1245-1377 | equals the double-indirect stage |
| Driver.Ext2.AllocateNodeBlocks | src/filesystem/ext2.c:1106-1379 | equals `Allocation.AllocBlocks` |
| Driver.Ext2.WriteNode | src/filesystem/ext2.c:1381-1391 | changes one slot of one table block |
| Driver.Ext2.InitDirectoryTable | src/filesystem/ext2.c:81-154 | equals its specification, fallback block included |
| Driver.Ext2.ReleaseTree | src/filesystem/ext2.c:854-961 | equals `Reclaim.FreeTree` |
| Driver.Ext2.DeallocateNode | src/filesystem/ext2.c:836-975 | equals `Operations.DeallocNode` |
| Driver.Ext2.ReadInode | src/filesystem/ext2.c:443-512 | fills the buffer with the inode's bytes and leaves the rest of it alone |
| Driver.Ext2.IsDirectoryEmpty | src/filesystem/ext2.c:265-288 | equals its specification |
| Driver.Ext2.ReadDirectory | src/filesystem/ext2.c:290-375 | return code and buffer are those of the specification |
| Driver.Ext2.Read | src/filesystem/ext2.c:377-513 | return code and buffer are those of the specification |
| Driver.Ext2.Write | src/filesystem/ext2.c:515-683 | return code and new state are those of the specification |
| Driver.Ext2.Delete | src/filesystem/ext2.c:686-806 | return code and new state are those of the specification |
| Driver.Ext2.CreateExt2 | src/filesystem/ext2.c:167-250 | the device holds the formatted image of the specification |
| Driver.Ext2.Initialize | src/filesystem/ext2.c:252-263 | the device and both caches become `Format.Initialise` of the device: formatted only without the signature, then loaded |
| Mounted.AlwaysCallable | src/filesystem/ext2.c:377-806 | in a sane state every method can be called with any request: no bad index, no endless scan |
| Mounted.Session | src/filesystem/ext2.c:515-806 | a session of safe calls on the class ends where the run of the specification ends |
| Paging.AllocFrameOK | src/memory/paging.c:58-95 | mapping takes the lowest free frame and disturbs no other mapping; isolation and the free count are kept |
| Paging.PageMapped | src/memory/paging.c:34-95 | the entry of the four megabytes around the address gets the lowest free frame with all four flags; no other entry of any directory changes |
| Paging.NewDirOK | src/memory/paging.c:133-167 | a directory is handed out exactly when one is unused, with an empty user part |
| Paging.NewDirMapped | src/memory/paging.c:146-163 | the lowest unused directory gets the kernel's entry at 0xC0000000; no other entry of any directory changes |
| Paging.FreeDirOK | src/memory/paging.c:169-192 | giving a directory back clears the present, write and size bits of each entry and nothing else; its frames stay taken |
| Paging.BootMemoryOK | src/kernel.c:29 | after boot thirty frames are free, isolation holds, and the kernel's directory maps frame 1 at 0 and the kernel at 0xC0000000 only |
| Paging.PageManager.AllocateUserPageFrame | src/memory/paging.c:58-95 | equals `Paging.AllocFrame` |
| Paging.PageManager.CreateNewPageDirectory | src/memory/paging.c:133-167 | equals `Paging.NewDir` |
| Paging.PageManager.FreePageDirectory | src/memory/paging.c:169-192 | equals `Paging.FreeDir` |
| Processes.CreateOK | src/process/process.c:39-119 | creation keeps isolation for every size and takes two frames while any is left when it passes its checks, none otherwise |
| Processes.DestroyOK | src/process/process.c:121-139 | destruction keeps isolation and the process count |
| Processes.SaveOK | src/process/scheduler.c:22-32 | saving the running context leaves every process ready |
| Processes.SwitchOK | src/process/scheduler.c:43-57 | a switch marks the process it picks as running, the one it leaves as ready, and touches no other and no context |
| Processes.SearchEnds | src/process/scheduler.c:43-48 | the search for the next process ends whenever one is active |
| Scheduling.ReachableOK | src/process/process.c:39-119 | over every run from boot: isolation, as many free frames as the creations leave of thirty, and a directory left exactly when those of processes and those lost are fewer than thirty-two |
| Scheduling.PoolEmptyExactly | src/memory/paging.c:133-192 | over every run from boot the directories in use are those of the processes and those taken for executables that could not be read; the pool is empty exactly when both make thirty-two |
| Scheduling.PoolLasts | src/process/process.c:80-93 | fewer than sixteen unreadable executables never empty the pool, however many processes come and go |
| Scheduling.TwoFramesExactly | src/process/process.c:57-85 | a creation past its checks takes exactly two frames if and only if its size did not wrap to no frames or a frame is left |
| Scheduling.FifteenExactly | src/process/process.c:57-85 | in a run from boot at most fifteen creations pass their checks if and only if each took its two frames |
| Scheduling.WrappedSizePasses | src/process/process.c:141-143 | such a wrapping size exists: it passes the checks with no frame left |
| Shortage.FifteenUseAll | src/process/process.c:57-105 | after `kernel_setup`, fourteen creations by the running shell leave no frame, and a slot |
| Shortage.SixteenthIsEmpty | src/process/process.c:57-105 | one more of wrapping size then passes its checks, and its directory maps nothing of its own |
| Shortage.PoolRunsOut | src/process/process.c:80-105 | after `kernel_setup`, thirty-one unreadable executables, each started and killed by the running shell, use up the directories: the next creation gets none; that the shell goes on after each failed read, with the new directory loaded, is assumed (see "Left out") |
| Starting.CreateCodeExactly | src/process/process.c:39-93 | the answer of a creation in numbers: 1 with sixteen processes, 2 for an entry point from 0xC0000000 on, 3 for a size above seven frames that does not wrap or with no frame left unless it wraps to none, 4 when the executable cannot be read, else 0 |
| Starting.CreatedContext | src/process/process.c:95-114 | the lowest inactive slot gets the entry point, both stack pointers 0xBFFFFFFC, segments 0x23, bits 1 and 9 of the flags beside those it had, and the lowest unused directory; all other slots are left alone |
| Starting.StartsAsCreated | src/cpu/interrupt.c:63-82 | from boot on, whatever happens in between, the first switch to a new process hands over exactly these values, the flags being 0x202 |
| Starting.CreateMaps | src/process/process.c:80-85 | with frames left its directory maps for the user the page of the entry point and that of the stack and nothing else, and the kernel's page |
| Starting.StepKeepsSpace | src/memory/paging.c:58-192 | no step changes any entry in the directory of a process that outlives it |
| Starting.ReachableMapsKernel | src/memory/paging.c:146-163 | over every run from boot every process with a directory has the kernel mapped at 0xC0000000 |
| Scheduling.OneRunning | src/process/scheduler.c:34-60 | after any run at most one process is RUNNING, it is active and current, and all others are READY; the count is right |
| Scheduling.PassedOverIsNearer | src/process/scheduler.c:34-60 | a switch that passes an active process over brings it strictly nearer |
| Scheduling.BoundedWaiting | src/process/scheduler.c:34-60 | a process that stays active is picked within sixteen switches whatever others do |
| Scheduling.PickedArePicks | src/process/scheduler.c:34-60 | while the set of active processes is steady, the switches of a run pick what the search alone says |
| Scheduling.FairRound | src/process/scheduler.c:34-60 | any run with `k` switches and a steady set of `k` active processes runs each of them exactly once |
| Scheduling.HandsOverRecorded | src/cpu/interrupt.c:63-82 | a switch hands over exactly the context recorded last for the process it picks |
| Scheduling.ResumesWhereRecorded | src/cpu/interrupt.c:63-82 | the same after any run from boot |
| ProcessManager.Manager.GetInactiveIndex | src/process/process.c:15-25 | returns the lowest inactive slot and claims it |
| ProcessManager.Manager.GetCurrentRunning | src/process/process.c:27-37 | returns the first active slot marked running |
| ProcessManager.Manager.CreateUserProcess | src/process/process.c:39-119 | equals `Processes.Create` |
| ProcessManager.Manager.DestroyProcess | src/process/process.c:121-139 | equals `Processes.Destroy` |
| ProcessManager.Manager.SaveContext | src/process/scheduler.c:22-32 | equals `Processes.Save` |
| ProcessManager.Manager.SwitchToNextProcess | src/process/scheduler.c:34-60 | equals `Processes.Switch` |
| ProcessManager.Manager.TimerInterrupt | src/cpu/interrupt.c:63-84 | equals the timer step |
| ProcessManager.Manager.ExitCall | src/cpu/interrupt.c:160-171 | equals the exit step |
| Graphics.PlaneDetermined | src/drivers/graphics.c:69-96 | a plane is determined by its pixels |
| Graphics.PixelPlace | src/drivers/graphics.c:71-96 | a pixel is one bit of byte `80 * y + x / 8` of each plane, the leftmost the highest; drawing it changes no other bit |
| Graphics.PixelReadsBack | src/drivers/graphics.c:69-96 | a drawn pixel reads back as the low four bits of its color, all others as before |
| Graphics.FillIsSixtyFourPixels | src/drivers/graphics.c:159-225 | the masked block fill leaves all planes as sixty-four pixels would, at every alignment |
| Graphics.OffScreen | src/drivers/graphics.c:71-172 | a pixel off the screen and a block not wholly on it leave all planes as they were |
| Graphics.ClearIsEveryPixel | src/drivers/graphics.c:98-111 | clearing equals drawing each pixel of the screen |
| Graphics.Vga.DrawPixelAt | src/drivers/graphics.c:69-96 | the plane loop is `DrawPixel`, off the screen nothing happens |
| Graphics.Vga.ClearScreen | src/drivers/graphics.c:98-111 | the byte loops are `Clear` |
| Graphics.Vga.FillBlock | src/drivers/graphics.c:159-225 | the plane and row loops are `Fill8x8`, no byte index out of range |
| PathText.SplitIsPlain | src/commands/cd.c:98-140 | whatever the path, `split_path` delivers at most `max` nonempty names below 63 bytes without a slash |
| PathText.SplitUndoesJoin | src/commands/cd.c:98-140 | splitting a joined path returns the names if and only if they are plain and few enough |
| PathText.SplitKeepsFirst | src/commands/cd.c:98-140 | with more plain names than room the first ones are kept |
| PathText.SplitExactly | src/commands/cd.c:98-140 | `split_path` of any string: every slash separates, a piece is a name if it has 1 to 62 bytes and nothing otherwise, and the first `max` names are delivered |
| PathText.JoinedExactly | src/user/user-shell.c:94-101 | the printed path byte for byte: each name behind one slash, or a slash alone |
| Paths.SeenDirectory | src/filesystem/ext2.c:290-375 | reading "." of a directory fills the buffer with the directory's first block |
| Paths.ParentIsUp | src/commands/cd.c:16-51 | `get_parent_inode` answers what ".." of the directory names |
| Paths.ChildIsListed | src/commands/cd.c:53-96 | `find_child_inode` answers the first directory entry of the name |
| Paths.DisplayIsPath | src/user/user-shell.c:30-102 | the printed path is the join of the names from the root down |
| Paths.DisplayExactly | src/user/user-shell.c:30-102 | what is printed for any directory, when nothing is found past a block: the names from it up, at most 31, as far as each parent's first block lists one below 63 bytes |
| Paths.QuietIsBarren | src/commands/cd.c:53-96 | a zero record length past the block is enough for no scan to find a name there |
| Paths.ForgedIsFound | src/commands/cd.c:53-96 | otherwise the stack decides: a record left there makes any unlisted name lead to any inode |
| Paths.WalkAttains | src/commands/cd.c:153-189 | wherever a walk from the root ends, it came by plain, unshadowed names, no more than it had components |
| Paths.WalkFailsExactly | src/commands/cd.c:153-189 | a walk ends where the names lead one after another, and fails if and only if some component is not listed as a directory where those before it lead, given that scans that run off a block find no name there; `..` never fails |
| Paths.CdArrives | src/commands/cd.c:142-193 | under the same condition, an absolute path each of whose components is listed where those before it lead ends where at most sixteen plain, unshadowed names lead |
| Paths.CdExactly | src/commands/cd.c:142-193 | `cd` on any path, relative or absolute: from the current directory or the root it ends where its names lead, and stays exactly when they lose their way; scans that run off a block must find no name there |
| Paths.CdIntoChild | src/commands/cd.c:142-193 | `cd` on one name that the current directory lists goes to that child, whatever the stack holds |
| Paths.CdToParent | src/commands/cd.c:142-193 | `cd ..` goes to the parent, whatever the stack holds |
| Paths.CdReturns | src/commands/cd.c:142-193 | `cd` on the printed path returns to the directory from anywhere, whatever the stack holds |
| Paths.CdReturnsExactly | src/commands/cd.c:142-193 | `cd` on the printed path of any directory, called anywhere, ends there if and only if its depth is at most sixteen, each name on the way can be printed and none is shadowed, or it was called there and some component of the path is not listed where those before it lead |
| Paths.PathRoundTrip | src/user/user-shell.c:30-102 | in a sane state distinct sibling names, depth at most sixteen and plain names are enough |
| Hazards.ShadowHazard | src/commands/cd.c:53-96 | a reached directory "/b" behind a newer one of the same name, to which `cd` on its path never returns |
| Shell.SplitComponents | src/commands/cd.c:98-140 | the loop fills the component rows with `PathText.SplitPath` |
| Shell.UserShell.GetParentInode | src/commands/cd.c:16-51 | equals `Paths.GetParent` |
| Shell.UserShell.FindChildInode | src/commands/cd.c:53-96 | equals `Paths.FindChild` |
| Shell.UserShell.ChangeDirectory | src/commands/cd.c:142-193 | the current inode becomes `Paths.Cd` of the argument, or stays |
| Shell.UserShell.UpdatePathDisplay | src/user/user-shell.c:30-102 | the text from the buffer on is `Paths.Display` of the current inode; the bytes past its end are kept, so those behind the 256-byte buffer are when it fits |
| Shell.ShellCallable | src/commands/cd.c:16-96 | in a sane state the shell can read any directory |

## Left out

- The tails of blocks 1 and 2 after `sync_metadata`: the source writes uninitialised bytes there; the model keeps them as they were.
- The disk is a value in a field of `Ext2`, replaced block by block, not an array; aliasing of block buffers is not modelled.
- Requests name a parent inode of at most 896 and a name of at most 255 bytes; larger ones index past the tables in the source.
- The data of a request is a sequence, empty for the null buffer; requests with a buffer but size 0 are the same as those without.
- An inode number read from uninitialised stack by a path walker: the directory read is taken to fail.
- Undo.WriteUndone: blocks that were free and are free again may hold other bytes, as may the tails of blocks 1 and 2, and the word past the directory block must be zero for a directory to be deletable.
- Paths.CdReturnsExactly: scans that run off a block must find no name there (`Paths.Barren`); `Paths.ForgedIsFound` shows that the equivalence fails otherwise. `Paths.CdReturns` needs no such condition.
- Paths.DisplayIsPath: for names of 63 bytes or more, with a slash or a zero byte, or outside the first block of the parent, or below level 31, what is printed is not the path; `Paths.DisplayExactly` says what it is.
- An entry written through the null directory pointer, when the pool is empty, lands in memory that is not modelled; the frame is taken all the same.
- Shell.UserShell.UpdatePathDisplay: the bytes behind the 256-byte buffer are 1792 bytes of memory, as much as the longest path needs; what else lies there is not modelled.
- Scheduling.BoundedWaiting: steps with no active process are excluded, because the scheduler's search then never ends.
- The first switch writes before the start of the process list in the source; the model skips that write.
- `kill` of a process number of sixteen or more indexes past the list in the source and is excluded.
- Reading the executable in `process_create_user_process` is one answer, `readOk`, even where nothing is mapped to read it into; a failed read leaves the half-made slot, as in the source.
- Shortage.PoolRunsOut: after a failed read the source returns with the new directory still loaded; what its caller then finds in memory, and so whether it can call again, is not modelled: runs take it that it may.
- The process name, `virtual_addr_used`, CR3 and translation buffers, `set_tss`, interrupt controllers and `pit_ticks`.
- `vga_init`, and all VGA registers other than plane selection; cursor and character drawing are calls of the modelled functions.
- `deallocate_block`, `deallocate_blocks`, `get_inode_for_path`, `paging_free_user_page_frame`: nothing calls them.
- Disk ports and waiting, descriptor tables, keyboard, clock, console, font, assembly including the context switch itself.
- The other shell commands and the messages of `cd`; the null check of its argument never succeeds.
