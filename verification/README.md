# PanicOS, verified

A Dafny 4.11 model of the parts of the PanicOS kernel and shell where most of the state, branching and
arithmetic is, with proofs of what they promise. `dafny verify dfyconfig.toml` checks the whole project.

| files | what they model |
|---|---|
| `BlockCache` | the sector cache between drivers and file systems |
| `FatTable`, `Fat32Layout`, `Fat32Bytes`, `Fat32Write`, `Fat32Volume` | the FAT32 driver's table, chains, and reading and writing of file bytes |
| `Fat32Names`, `Fat32Dir`, `Fat32Files`, `Fat32Ops` | 8.3 names, directories, paths, and create, open, resize and remove |
| `FileDescriptor` | `read`, `write`, `seek` and `close` on a descriptor |
| `SleepLock` | sleeplocks, spinlocks, `sleep` and `wakeup` as a state machine over single steps |
| `ProcTable`, `ProcHistory`, `ProcProgress`, `ProcRun` | fork, exit, wait, sleep, wakeup, yield, the scheduler and interrupts on several CPUs, laws about whole histories, absence of deadlock on the table lock, and an example run |
| `VirtRing`, `VirtQueue`, `VirtioBlk` | a virtio split queue (section 2.6 of VIRTIO 1.1) with the block driver, the device and the interrupt handler |
| `PageAlloc` | the physical page allocator |
| `PageTable`, `AddressSpace`, `Heap` | three-level page tables, address spaces, and the process heap |
| `Messages` | message queues between processes |
| `Console` | the console's line discipline |
| `Paths` | path splitting, printing and joining |
| `ShellGrammar`, `ShellComplete`, `ShellLexer`, `ShellParser`, `ShellText`, `ShellRoundTrip` | the shell's lexer, parser and NUL termination |
| `Bytes`, `DivMod` | byte strings and arithmetic shared by the others |

Code that updates things in place is modelled by classes and methods with loops, each proved against a function or
relation on values about which the laws are then proved. Code whose correctness is about interleavings is
modelled as a state machine whose steps are single lock operations or the sections a lock protects, and the theorems
are about every state of every run.

Where the code does less than one might expect, the model follows the code:

- `hal_block_read` reports success even when the driver refused the sector (`BlockDevice.ReadSector`).
- `fat32_write` does not notice a full volume: it links the file to whatever the allocator returned, which is 0 or a
  table entry past the last cluster. `RoundsExact` and `Write` say exactly when the file keeps a chain.
- Creating and removing a file ignore a failed search for the directory and act on the last directory found, or on an
  uninitialised cluster number if there is none (`ParentDir`).
- An entry name is made from any string; `NameExact` says exactly which strings can be read back from it.
- An entry with a blank base makes the search run off its buffer, and creating ".x" makes one; `BlankEntryOfName`,
  `DirSearch` and `DotFileCrashes` say exactly when.
- `fat32_write` adds one cluster at a time, whatever the offset; `Write` says exactly where the data then go.
- `kill` makes the victim a zombie at once, wherever it is, and wakes nobody; `KillCpu`, `KillWait` and `KillFamily`
  say exactly when the laws of the process table survive it.
- A sender does not check for a full queue; `TestExact` says exactly when the owner's empty test is right.
- `vfs_fd_seek` accepts only offsets below the size, from every origin, so SEEK_END on a file below
  2 GiB always leaves the file.
- `copyout` to a page without a page table reads the entry at the null pointer; `CopyOut` says exactly when.
- `fat32_file_create` does not look for an existing entry, and overwriting the end marker uncovers whatever was
  behind it; `CreateThenOpen` says exactly what every name then resolves to, `RemoveIsAbsent` when a name stays.
- `kinit2` replaces everything behind the head of the free list; `KInit2` says exactly when no page is lost.
- `pgfree` of no pages still links a header; `PgFree` says the list survives exactly when the count is positive.
- A comment in the shell tells `>>` from `>`, but both build the same node.

## Model

| member | source | states |
|---|---|---|
| `BlockCache.BlockDevice.ReadSector` | kernel/hal/block.c:88-117 | status 0 always; on an address the driver serves, the bytes are the device's, whatever the cache held; a miss fills the next slot in turn, a hit changes nothing |
| `BlockCache.BlockDevice.WriteSector` | kernel/hal/block.c:142-163 | the device changes in that sector only, or not at all with the driver's error, and no cached copy goes stale |
| `BlockCache.BlockDevice.FindSlot` | kernel/hal/block.c:88-104 | the slot holding the address, or that no slot does |
| `BlockCache.BlockDevice.Run` | kernel/hal/block.c:88-163 | for every sequence of single-sector operations the device and the answers are those of the uncached device |
| `FatTable.ChainUnique` | kernel/filesystem/fat32/fat.c:36-46 | a chain is determined by its head and the table |
| `FatTable.AllocateKeepsPartition` | kernel/filesystem/fat32/cluster.c:109-136 | with a free cluster in the volume, the lowest becomes a chain of its own and the table stays a partition into free clusters and disjoint terminated chains |
| `FatTable.AllocatesInVolume` | kernel/filesystem/fat32/cluster.c:109-136 | the allocator answers a cluster of the volume if and only if the volume has a free one, and then the lowest; the table may have entries past the last cluster |
| `FatTable.AllocateBeyond` | kernel/filesystem/fat32/cluster.c:109-136 | with none free it changes no chain and no cluster of the volume |
| `FatTable.AllocationsAscend` | kernel/filesystem/fat32/cluster.c:109-136 | clusters are handed out in ascending order, and after a chain is freed the lowest of its clusters and the next free one comes first |
| `FatTable.AppendKeepsPartition` | kernel/filesystem/fat32/fat.c:70-78 | linking two chains concatenates them; the free clusters are the same |
| `FatTable.FreeKeepsPartition` | kernel/filesystem/fat32/fat.c:80-91 | freeing a chain frees exactly its clusters, none of which was free |
| `FatTable.RunsKeepPartition` | kernel/filesystem/fat32/fat.c:48-91 | the partition holds after every sequence of allocate, append and free |
| `FatTable.RoundsExact` | kernel/filesystem/fat32/cluster.c:138-166 | after any number of rounds of allocate and append the file has a chain if and only if the volume had that many free clusters |
| `FatTable.StrayHasNoChain` | kernel/filesystem/fat32/cluster.c:138-166 | a file whose links leave the volume is in no partition into chains |
| `FatTable.StrayStays` | kernel/filesystem/fat32/cluster.c:138-166 | no later round brings such a file back |
| `Fat32Layout.Boot.ClustersApart` | kernel/filesystem/fat32/cluster.c:27-31 | different clusters occupy disjoint ranges of sectors |
| `Fat32Layout.Boot.FirstCluster` | kernel/filesystem/fat32/cluster.c:27-31 | the tables follow the reserved sectors, and cluster 2 follows the second table |
| `Fat32Layout.Boot.ClustersAbut` | kernel/filesystem/fat32/cluster.c:27-31 | each cluster starts where the one before it ends |
| `Fat32Layout.Boot.OneClusterPerSector` | kernel/filesystem/fat32/cluster.c:27-31 | every sector behind the tables belongs to exactly one cluster, numbered from 2 |
| `Fat32Layout.EntryDigits` | kernel/filesystem/fat32/fat.c:27-34 | the digits of a table entry are the four bytes at four times its number in the first table on disk |
| `Fat32Volume.Volume.FatRead` | kernel/filesystem/fat32/fat.c:27-34 | the table entry of a cluster |
| `Fat32Volume.Volume.WriteFat` | kernel/filesystem/fat32/fat.c:48-68 | one entry changes in both tables, which stay mirrored; nothing outside the tables changes |
| `Fat32Volume.Volume.OffsetCluster` | kernel/filesystem/fat32/fat.c:36-46 | the cluster of a byte offset along the chain, 0 past its end |
| `Fat32Volume.Volume.AppendCluster` | kernel/filesystem/fat32/fat.c:70-78 | on disk, the last cluster of the chain gets the link, whatever it is; the head of another chain makes the two one |
| `Fat32Volume.Volume.FreeChain` | kernel/filesystem/fat32/fat.c:80-91 | on disk, exactly the chain's clusters become free |
| `Fat32Volume.Volume.AllocateCluster` | kernel/filesystem/fat32/cluster.c:109-136 | the lowest free entry of the table, 0 if there is none; a cluster of the volume, and then a new chain, if and only if the volume has a free one |
| `Fat32Volume.Volume.ExtendChain` | kernel/filesystem/fat32/cluster.c:152-159 | allocate and append: the chain gains the lowest free cluster if and only if there is one |
| `Fat32Volume.Volume.ReadCluster` | kernel/filesystem/fat32/cluster.c:33-56 | the bytes of a range of a cluster, across sectors |
| `Fat32Volume.Volume.WriteCluster` | kernel/filesystem/fat32/cluster.c:80-107 | the range holds the data; every other sector is as before, also when the device does not have the whole range |
| `Fat32Volume.Volume.Read` | kernel/filesystem/fat32/cluster.c:58-78 | every byte of the request that lies inside the chain is the file's |
| `Fat32Volume.Volume.Write` | kernel/filesystem/fat32/cluster.c:138-166 | the file keeps a chain if and only if its clusters and the free ones hold the range; then the data are laid over the file, the chain has grown just as far as needed, tables are mirrored, everything else is untouched; the data go to the offset if and only if that is not beyond the cluster after the chain, and right behind the chain otherwise |
| `Fat32Write.WriteSplices` | kernel/filesystem/fat32/cluster.c:138-166 | the file's bytes after a write are its old bytes up to the place, the data, and its old bytes after it; in added clusters the old bytes are what they held |
| `Fat32Write.WriteKeepsOthers` | kernel/filesystem/fat32/cluster.c:138-166 | every other file keeps its chain and its bytes |
| `Fat32Volume.Volume.WriteThenRead` | kernel/filesystem/fat32/cluster.c:58-166 | reading back the range just written returns the data, for every offset up to the cluster after the chain, if and only if there was room |
| `Fat32Bytes.PlacedShift` | kernel/filesystem/fat32/cluster.c:138-166 | for every later byte of a misplaced write, place and offset differ by whole clusters |
| `Fat32Bytes.FileIsSectors` | kernel/filesystem/fat32/cluster.c:27-78 | a file is, sector by sector, the sectors of its clusters at their addresses on the disk |
| `Fat32Names.GetFullName` | kernel/filesystem/fat32/dir.c:28-61 | the lower-case string of an entry name; the scan runs off the buffer if and only if the base is blank |
| `Fat32Names.GetShortName` | kernel/filesystem/fat32/dir.c:206-227 | the entry name made for any string, or that the driver steps over the string's end |
| `Fat32Names.NameExact` | kernel/filesystem/fat32/dir.c:206-227 | a string can be read back from the entry name made for it if and only if it is in lower case with a base of 1 to 8 bytes not ending in a blank and, after a dot, 1 to 3 bytes without a blank or a later dot |
| `Fat32Names.OverrunExact` | kernel/filesystem/fat32/dir.c:206-227 | the driver steps over the end of a string if and only if its last byte is a dot that moves the copy to the extension and the copy has not stopped before |
| `Fat32Names.BlankExact` | kernel/filesystem/fat32/dir.c:206-227 | the entry name made for a string has a blank base if and only if only blanks stand before its first dot among its first eight bytes |
| `Fat32Names.DotFile` | kernel/filesystem/fat32/dir.c:206-227 | a dot and one byte make such an entry name |
| `Fat32Names.RawNameBytes` | kernel/filesystem/fat32/dir.c:206-227 | position by position, what the entry name of an 8.3 string holds |
| `Fat32Names.FullNameOfRawName` | kernel/filesystem/fat32/dir.c:28-61 | string to entry name and back is the identity on valid lower-case 8.3 names, whose entry names are valid |
| `Fat32Names.RawNameOfFullName` | kernel/filesystem/fat32/dir.c:206-227 | entry name to string and back is the identity on valid entry names |
| `Fat32Dir.FindsUnique` | kernel/filesystem/fat32/dir.c:63-96 | a name resolves to at most one entry |
| `Fat32Dir.LookupUnique` | kernel/filesystem/fat32/dir.c:63-96 | a search ends in one way only: at an entry, without one, or at an entry it cannot read |
| `Fat32Dir.FindsOrAbsent` | kernel/filesystem/fat32/dir.c:63-96 | a search ends in one of these ways; names end at their first zero byte, as in the comparison |
| `Fat32Dir.SkippedByAll` | kernel/filesystem/fat32/dir.c:63-96 | no name is found at an entry if and only if it is deleted, part of a long name or the volume label |
| `Fat32Dir.InsertResolves` | kernel/filesystem/fat32/dir.c:229-268 | the search for the name of a new entry comes to it if and only if it came to nothing before that place, and so does every search if the new entry cannot be read; earlier answers stay |
| `Fat32Dir.InsertOverDeleted` | kernel/filesystem/fat32/dir.c:229-268 | reusing a deleted entry makes no other name appear |
| `Fat32Dir.InsertObeys` | kernel/filesystem/fat32/dir.c:229-268 | every search that goes past the new entry ends as before, up to entries behind the old end marker |
| `Fat32Dir.InsertOverEnd` | kernel/filesystem/fat32/dir.c:229-268 | overwriting the end marker keeps another name absent if and only if nothing left behind it carries that name |
| `Fat32Dir.ZeroTailIsAbsent` | kernel/filesystem/fat32/dir.c:63-96 | behind an end marker, such as zero-filled slots and clusters provide, no name is found |
| `Fat32Dir.RemoveKeeps` | kernel/filesystem/fat32/dir.c:330-371 | every other name still resolves to its entry, and every other search still crashes where it did |
| `Fat32Dir.RemoveKeepsAbsent` | kernel/filesystem/fat32/dir.c:330-371 | an absent name stays absent |
| `Fat32Dir.RemoveIsAbsent` | kernel/filesystem/fat32/dir.c:330-371 | a removed name is gone if and only if no later entry carries it |
| `Fat32Dir.RemoveObeys` | kernel/filesystem/fat32/dir.c:330-371 | after a removal every other name resolves as before, and the removed one is gone if and only if no later entry carries it |
| `Fat32Dir.InsertThenRemove` | kernel/filesystem/fat32/dir.c:229-371 | inserting and deleting an entry leaves every name as it was, but for names an entry behind the old end marker carries |
| `Fat32Dir.RemovalMakesRoom` | kernel/filesystem/fat32/dir.c:229-371 | after a removal the next new entry goes to the freed place, or to where it would have gone before if that is earlier |
| `Fat32Dir.EntryLayout` | kernel/filesystem/fat32/fat32-struct.h:37-70 | which bytes of an entry are the digits of its cluster and of its size |
| `Fat32Dir.LeadsUnique` | kernel/filesystem/fat32/dir.c:98-109 | a path leads to at most one cluster |
| `Fat32Dir.PathsKept` | kernel/filesystem/fat32/dir.c:98-109 | paths lead where they led when the directories keep what their names resolve to |
| `Fat32Dir.StopsOrLeads` | kernel/filesystem/fat32/dir.c:98-109 | a path that stops at an absent name, or at an entry the search cannot read, leads nowhere |
| `Fat32Files.ReadEntry` | kernel/filesystem/fat32/dir.c:63-80 | the entry at an index, and whether the directory has one there |
| `Fat32Files.DirSearch` | kernel/filesystem/fat32/dir.c:63-96 | the entry the name resolves to, "not exist" if and only if it is absent, or the buffer overrun if and only if the search gets to an entry with a blank base |
| `Fat32Files.WriteEntry` | kernel/filesystem/fat32/dir.c:373-395 | one entry of one directory changes; every other file keeps its bytes |
| `Fat32Files.InsertEntry` | kernel/filesystem/fat32/dir.c:229-268 | the entry goes into the first free place, in a new cluster if there is none; it gets there if and only if there is a place or a free cluster |
| `Fat32Files.AppendEntry` | kernel/filesystem/fat32/dir.c:252-268 | a full directory grows by one cluster that starts with the entry if and only if one is free |
| `Fat32Ops.FileCreate` | kernel/filesystem/fat32/dir.c:408-437 | for every name: the lowest free cluster becomes the file's chain and the directory gains the entry made for the name, if and only if the volume has the one or two free clusters this takes and the driver does not step over the end of the name; out of space is reported without touching data |
| `Fat32Ops.CreateThenOpen` | kernel/filesystem/fat32/dir.c:408-437 | after creating a file under any name, for every name: searches that came to something before the new entry come to it still; the new entry's name resolves to it if and only if there was nothing before; other names resolve as before, and absent ones stay absent exactly when nothing stale carries them |
| `Fat32Ops.EntryOfName` | kernel/filesystem/fat32/dir.c:408-437 | the entry made for a name is found under it if and only if the name can be read back and does not begin with the deleted marker |
| `Fat32Ops.BlankEntryOfName` | kernel/filesystem/fat32/dir.c:408-437 | creating a file makes an entry that no search can read if and only if only blanks stand before the first dot of the name among its first eight bytes |
| `Fat32Ops.DotFileCrashes` | kernel/filesystem/fat32/dir.c:41-44 | after creating ".x" the search for every absent name of that directory runs off the driver's buffer |
| `Fat32Ops.PathSearch` | kernel/filesystem/fat32/dir.c:98-109 | the cluster a path of any length leads to, "not exist" at the first name that is absent, or the overrun at the first that gets to an entry that cannot be read |
| `Fat32Ops.ParentDir` | kernel/filesystem/fat32/dir.c:408-423 | the directory of a path, or where the search for it stopped |
| `Fat32Ops.Open` | kernel/filesystem/fat32/dir.c:111-123 | the cluster the path leads to, the root's for an empty path, "not exist" or the overrun |
| `Fat32Ops.UpdateSize` | kernel/filesystem/fat32/dir.c:373-406 | the size field of the entry the name resolves to, and nothing else, changes; nothing changes if there is none |
| `Fat32Ops.ResizeKeeps` | kernel/filesystem/fat32/dir.c:373-406 | every name resolves as before a size change |
| `Fat32Ops.FileRemove` | kernel/filesystem/fat32/dir.c:330-371 | the file's clusters become free, its entry deleted, all else kept; directories and absent names are refused without a change, and an overrun changes nothing before it |
| `Fat32Ops.RemoveThenLookup` | kernel/filesystem/fat32/dir.c:330-371 | on disk, the removed name is gone if and only if no later entry carries it; every other name resolves as before |
| `Fat32Ops.CreateThenRemove` | kernel/filesystem/fat32/dir.c:330-437 | creating a file and removing it leaves every name as it was, but for names stale entries carry |
| `Fat32Ops.CreateKeepsPaths` | kernel/filesystem/fat32/dir.c:408-437 | after creating a file every path leads where it led, unless one of its names resolved behind the new entry and the new entry ends the search for it |
| `Fat32Ops.CreateLeads` | kernel/filesystem/fat32/dir.c:408-437 | the path to the directory with the name of the new file leads to the new file |
| `Fat32Ops.RemoveKeepsPaths` | kernel/filesystem/fat32/dir.c:330-371 | after removing a file every path that does not come to it leads where it led |
| `Fat32Ops.RemoveStops` | kernel/filesystem/fat32/dir.c:330-371 | the path to the removed file stops at its name if and only if no later entry ends the search |
| `FileDescriptor.FileDesc.ReadBytes` | kernel/filesystem/vfs/filedesc.c:73-101 | the bytes counted are those of the file at the position, which moves on by them; refused on a closed, write-only or directory descriptor |
| `FileDescriptor.FileDesc.WriteBytes` | kernel/filesystem/vfs/filedesc.c:103-128 | writes at the position, or at the end in append mode, if and only if the volume has room; other files keep their bytes; past the end of the file the bytes between are left as they are, and the size fits the chain if and only if the position was not beyond the cluster after it |
| `FileDescriptor.FileDesc.Seek` | kernel/filesystem/vfs/filedesc.c:149-171 | moves the position relative to start, position or end by an offset below the size, with 32-bit wrap, refuses others; SEEK_END on a file below 2 GiB never lands inside the file |
| `FileDescriptor.FileDesc.Run` | kernel/filesystem/vfs/filedesc.c:73-171 | any sequence of reads, seeks and writes starting inside the file answers as a byte string with a position does, if and only if the volume has room for what it becomes |
| `FileDescriptor.FileDesc.Close` | kernel/filesystem/vfs/filedesc.c:130-147 | after writing, the directory entry the search comes to records the file's size; without one nothing is written |
| `FileDescriptor.PerformAllSnoc` | kernel/filesystem/vfs/filedesc.c:73-171 | answers to a longer sequence extend those to the shorter one |
| `FileDescriptor.SeekThenRead` | kernel/filesystem/vfs/filedesc.c:73-171 | after an accepted SEEK_SET a read returns the bytes from there on |
| `FileDescriptor.SeeksAdd` | kernel/filesystem/vfs/filedesc.c:149-171 | two moves from the position add up, and a move by 0 tells the position |
| `FileDescriptor.SeekEndThenRead` | kernel/filesystem/vfs/filedesc.c:73-171 | an accepted SEEK_END goes past the end, where nothing can be read |
| `FileDescriptor.ReadsJoin` | kernel/filesystem/vfs/filedesc.c:73-101 | one read after the other is one read of both lengths |
| `FileDescriptor.WriteThenSeekRead` | kernel/filesystem/vfs/filedesc.c:73-171 | what was written reads back after seeking to where it was written; nothing before or behind it changes |
| `SleepLock.NextInv` | kernel/common/sleeplock.c:36-52 | every single step of every thread keeps the invariant |
| `SleepLock.RunInv` | kernel/common/sleeplock.c:36-52 | the invariant holds in every state of every run |
| `SleepLock.MutualExclusion` | kernel/common/sleeplock.c:36-52 | a sleeplock has at most one owner, and records its pid |
| `SleepLock.NoLostWakeup` | kernel/core/proc.c:478-533 | whoever is committed to sleeping on a lock finds it taken, or finds its releaser still about to wake sleepers |
| `SleepLock.NobodySleepsOnFreeLock` | kernel/core/proc.c:478-533 | no process is asleep on a lock that is free and at rest |
| `SleepLock.SpinnersHoldNothing` | kernel/arch/x86/spinlock.c:38-80 | a process that spins holds neither spinlock, so none deadlocks on itself |
| `SleepLock.SomebodyMoves` | kernel/common/sleeplock.c:36-52 | nothing deadlocks: in every state of every run in which a process is in a call and not asleep some process can go on, at most after the scheduler took or dropped the table lock |
| `ProcTable.StepInv` | kernel/core/proc.c:97-533 | every step of every CPU, of processes and of interrupt handlers, keeps the invariant |
| `ProcTable.RunInv` | kernel/core/proc.c:97-533 | the invariant holds in every state of every run, with preemption inside fork and sleep and with handlers on idle CPUs |
| `ProcRun.RunsExist` | kernel/core/proc.c:221-388 | there is a run in which init is dispatched, loses the CPU in the middle of fork, a handler on the idle CPU calls wakeup, and init finishes the fork and waits |
| `ProcTable.NeverPanics` | kernel/core/proc.c:439-458 | no panic of sched, pushcli or popcli, nor of acquire or release on ptable.lock, is reachable; other spinlocks are a nesting count without an owner |
| `ProcTable.OneCpuPerRunningProcess` | kernel/core/proc.c:398-458 | whenever the table lock is free, a process is RUNNING if and only if it is current on a CPU, and then on one |
| `ProcTable.FamilyTree` | kernel/core/proc.c:221-388 | live pids are distinct; every live process but init has a live, non-zombie parent of smaller pid |
| `ProcTable.NoMissedExit` | kernel/core/proc.c:303-388 | a process asleep in wait has no zombie child |
| `ProcTable.InterruptFlagRestored` | kernel/core/proc.c:439-458 | a process that holds no lock has the interrupt flag it came with, whichever CPU it is on |
| `ProcTable.WantKept` | kernel/arch/x86/spinlock.c:113-134 | no step of another process, of a scheduler or of an interrupt handler changes that flag, nor any step of its own but setting it and the first dispatch |
| `ProcTable.ExitTree` | kernel/core/proc.c:303-342 | handing a process's children to init keeps the family tree |
| `ProcTable.KillCpu` | kernel/core/proc.c:538-552 | after a kill, RUNNING processes are still those on a CPU if and only if the victim was not running |
| `ProcTable.KillWait` | kernel/core/proc.c:538-552 | after a kill, nobody asleep in wait has a zombie child if and only if the victim's parent was not asleep in wait |
| `ProcTable.KillFamily` | kernel/core/proc.c:538-552 | after a kill, everybody but init still has a live parent if and only if the victim had no child |
| `ProcHistory.StateDiagram` | kernel/core/proc.c:97-533 | in every step of every history a process takes an arrow of the state diagram if and only if the step is the one that arrow stands for |
| `ProcHistory.WakeupWakes` | kernel/core/proc.c:518-533 | a wakeup makes exactly those asleep on its channel runnable |
| `ProcHistory.AsleepSince` | kernel/core/proc.c:478-533 | whoever is asleep on a channel called sleep on it, has been asleep since, and nobody has woken the channel since |
| `ProcHistory.WokenSince` | kernel/core/proc.c:478-533 | whoever is asleep on a channel after a wakeup of it called sleep after that wakeup |
| `ProcHistory.NoChanOutside` | kernel/core/proc.c:478-514 | outside sleep a process has no channel |
| `ProcHistory.KinshipOfStep` | kernel/core/proc.c:97-396 | a new process gets the next pid, fork sets the parent, exit hands the children to init, wait clears both, and nothing else changes them |
| `ProcHistory.LocksBalanced` | kernel/core/proc.c:478-514 | at every point a process holds the locks it took and did not give back, so sleep returns with its lock |
| `ProcHistory.PassServes` | kernel/core/proc.c:398-430 | no pass of a scheduler over the table goes by a process that is runnable throughout |
| `ProcHistory.PassInOrder` | kernel/core/proc.c:398-430 | a pass of a scheduler dispatches slots in the order of the table, each at most once |
| `ProcProgress.NeverStuck` | kernel/core/proc.c:97-533 | in every state of every history every CPU can take a step unless another one has the table lock, whose holder can always go on |
| `ProcProgress.CallsOpen` | kernel/core/proc.c:221-533 | when the table lock is free a process in the kernel can start any call its locks and its unfinished fork or sleep allow |
| `VirtRing.WindowPush` | kernel/driver/virtio/virtio.c:153-156 | storing at a wrapping index appends to the queue that two indices delimit |
| `VirtRing.WindowPop` | kernel/driver/virtio/virtio-blk.c:138-155 | reading at a wrapping index takes the queue's first entry |
| `VirtQueue.AllocDesc` | kernel/driver/virtio/virtio.c:158-173 | takes the lowest free descriptors, one after the other |
| `VirtQueue.AllocSucceeds` | kernel/driver/virtio/virtio.c:158-173 | allocation succeeds if and only if that many descriptors are free |
| `VirtQueue.AllocTakes` | kernel/driver/virtio/virtio.c:158-173 | the descriptors taken were free, are distinct, and are the only change |
| `VirtQueue.FreeDesc` | kernel/driver/virtio/virtio.c:175-184 | exactly the descriptors of the chain become free |
| `VirtioBlk.RequestInv` | kernel/driver/virtio/virtio-blk.c:31-81 | a request keeps the invariant |
| `VirtioBlk.InterruptInv` | kernel/driver/virtio/virtio-blk.c:138-155 | handling a completion keeps the invariant |
| `VirtioBlk.RunInv` | kernel/driver/virtio/virtio-blk.c:31-155 | the invariant holds in every state of every run, with the 16-bit indices wrapping any number of times |
| `VirtioBlk.RunsExist` | kernel/driver/virtio/virtio-blk.c:31-155 | there is a run in which a request is made, fetched, finished and handled, and its process woken |
| `VirtioBlk.DescriptorsConserved` | kernel/driver/virtio/virtio-blk.c:31-155 | chains in flight are disjoint, and free descriptors plus three per request make the queue size |
| `VirtioBlk.OutOfDescriptors` | kernel/driver/virtio/virtio-blk.c:31-81 | a request finds no descriptors exactly when fewer than three are left over |
| `VirtioBlk.CompletionsHandledOnce` | kernel/driver/virtio/virtio-blk.c:138-155 | each completion is handled once and in completion order; handled and in flight make up all requests |
| `VirtioBlk.SleepsOnlyInFlight` | kernel/driver/virtio/virtio-blk.c:31-81 | a process sleeps on its buffer only while its own chain is in flight |
| `VirtioBlk.RequestDescribed` | kernel/driver/virtio/virtio-blk.c:31-81 | for every request in flight in every run the device finds the header to read, the data with the direction of the call and the status byte to store, in this order and of these lengths |
| `VirtioBlk.InterruptReady` | kernel/driver/virtio/virtio-blk.c:138-155 | what the used ring shows is always a chain in flight, and handling it wakes its process and no other |
| `PageAlloc.TakesKeeps` | kernel/core/kalloc.c:63-110 | an allocation turns exactly the pages handed out from free to allocated |
| `PageAlloc.GivesKeeps` | kernel/core/kalloc.c:112-127 | a release makes exactly its pages free |
| `PageAlloc.PagesConserved` | kernel/core/kalloc.c:63-127 | over every history the free runs stay disjoint and non-empty and no page is lost or invented |
| `PageAlloc.NoDoubleAllocation` | kernel/core/kalloc.c:63-127 | a page handed out twice was freed in between |
| `PageAlloc.FreeThenAlloc` | kernel/core/kalloc.c:63-127 | pages just freed are the next to be handed out to a request of that length, and the list is then what it was |
| `PageAlloc.AllocsAscend` | kernel/core/kalloc.c:63-110 | a run is handed out from its front, one request right behind the other |
| `PageAlloc.CutMemoryIsList` | kernel/core/kalloc.c:73-100 | the headers rewritten in the free pages spell the list after the cut, and no allocated page is written |
| `PageAlloc.Kmem.PgAlloc` | kernel/core/kalloc.c:63-110 | the front of the first run in list order that fits; panic exactly when none fits; allocated pages untouched |
| `PageAlloc.Kmem.PgFree` | kernel/core/kalloc.c:112-127 | the pages come back, filled with ones, as a run at the head, other pages untouched; memory still holds a free list if and only if the count is positive |
| `PageAlloc.Kmem.ZeroPageLoop` | kernel/core/kalloc.c:63-127 | allocating and freeing no pages makes the list's head its own successor |
| `PageAlloc.Kmem.KInit1` | kernel/core/kalloc.c:44-52 | the whole pages of the range are one free run |
| `PageAlloc.Kmem.KInit2` | kernel/core/kalloc.c:54-61 | the list becomes the old head and the new range; every page is accounted for if and only if the head was the only run |
| `PageTable.IndicesInverse` | kernel/arch/x86/mmu.h:115-126 | the three table indices of a page number give it back |
| `PageTable.PageNumberInverse` | kernel/arch/x86/mmu.h:115-126 | the page number of three table indices has those indices |
| `PageTable.AddressIndices` | kernel/arch/x86/mmu.h:113-136 | which bits of an address are its three indices and its offset |
| `PageTable.UnpackPack` | kernel/arch/x86/mmu.h:148-149 | address and flags put together are taken apart again |
| `PageTable.PackUnpack` | kernel/arch/x86/mmu.h:148-149 | every 64-bit entry is its address and its flags put together |
| `PageTable.WordBits` | kernel/arch/x86/mmu.h:142-144 | in a stored word bit 0 says present and bit 2 says user |
| `PageTable.AddDir` | kernel/arch/x86/vm.c:68-81 | linking an empty directory changes no page of any space |
| `PageTable.AddLeaf` | kernel/arch/x86/vm.c:58-67 | linking an empty page table changes no page of any space |
| `PageTable.SetPte` | kernel/arch/x86/vm.c:94-107 | writing one entry changes that page of that space and nothing else |
| `PageTable.TouchPage` | kernel/arch/x86/vm.c:407-428 | changing the frame of a user page is seen through that page of that space only |
| `AddressSpace.Machine.Walk` | kernel/arch/x86/vm.c:52-83 | finds or makes the page table of an address, a new one with the permissions given; missing exactly when it is not there and may not be made; no translation changes |
| `AddressSpace.Machine.MapPages` | kernel/arch/x86/vm.c:88-109 | the pages of the range, all unmapped before, go to consecutive frames with the permissions given; no other page of any space changes; panics on a mapped page |
| `AddressSpace.Machine.UnmapPages` | kernel/arch/x86/vm.c:111-128 | the pages of the range, and no others, become absent |
| `AddressSpace.Machine.CopyUvm` | kernel/arch/x86/vm.c:363-387 | the child gets the parent's flags and bytes in frames that were not in use, nothing else changes; panics exactly on a page the parent has not mapped |
| `AddressSpace.Machine.UserFrame` | kernel/arch/x86/vm.c:391-402 | the frame of a present user page, refused otherwise; a null entry is read if and only if there is no page table |
| `AddressSpace.Machine.CopyOut` | kernel/arch/x86/vm.c:407-428 | of all bytes of all spaces exactly those written change, up to the first page user code may not access; success exactly when there is none, a null entry read exactly when that page has no page table |
| `AddressSpace.Machine.NewSpace` | kernel/arch/x86/vm.c:168-175 | a new space with nothing mapped; others unchanged |
| `AddressSpace.Machine.AllocUvm` | kernel/arch/x86/vm.c:276-301 | zeroed pages in fresh frames from the old to the new size, nothing else changes; a size past KERNBASE always ends in a panic |
| `AddressSpace.Machine.DeallocUvm` | kernel/arch/x86/vm.c:307-329 | the pages between the sizes are absent and their frames free again, nothing else changes |
| `Heap.Process.GrowProc` | kernel/core/proc.c:192-216 | the mapped pages above the bottom of the heap are exactly those below the page-rounded size and those of libraries; new pages are zeros, kept ones keep their bytes; remap panic only on growing into a library or the kernel, and a panic always past KERNBASE |
| `Heap.Process.Sbrk` | kernel/proc/syscall/sysproc.c:58-70 | returns the old end of the heap |
| `Heap.Process.SbrkAll` | kernel/core/proc.c:192-216 | after any sequence of calls that never shrinks below zero the heap is exactly mapped and its size the sum, up to a panic, which comes if the heap would ever pass KERNBASE |
| `Heap.Process.GrowThenShrink` | kernel/core/proc.c:192-216 | growing then shrinking by the same amount leaves every page of every space as it was |
| `Heap.Process.ForkHeap` | kernel/core/proc.c:260-269 | the heap copy of fork never meets an absent page; the child gets equal flags and bytes in frames of its own, nothing else changes |
| `Messages.TakeAllowed` | kernel/proc/syscall/sysproc.c:220-239 | whenever a message is received its pages are allocated, so each is freed once |
| `Messages.StepInv` | kernel/proc/syscall/sysproc.c:173-239 | every step of owner, senders and everybody else keeps the invariant, while it leaves fewer than 64 messages outstanding |
| `Messages.RunInv` | kernel/proc/syscall/sysproc.c:173-239 | the invariant holds in every state of every run up to which fewer than 64 messages were outstanding |
| `Messages.InOrder` | kernel/proc/syscall/sysproc.c:173-239 | messages are received in the order sent, with sender and bytes as sent |
| `Messages.NoMessageMissed` | kernel/proc/syscall/sysproc.c:220-239 | an owner asleep while the queue lock is free has an empty queue |
| `Messages.PagesOfMessages` | kernel/proc/syscall/sysproc.c:173-239 | the pages held for messages are those of the pending ones; none is left when all are read |
| `Messages.EmptyTest` | kernel/proc/syscall/sysproc.c:198-206 | equal indices mean an empty queue or one of exactly 64 messages |
| `Messages.TestExact` | kernel/proc/syscall/sysproc.c:173-239 | on every run, the test of the indices tells in all states whether there is a message if and only if there never were 64 outstanding |
| `Messages.SixtyFourMissed` | kernel/proc/syscall/sysproc.c:173-239 | whenever a 64th message is stored, the kernel can go on to an owner asleep with all 64 in the queue and nobody about to wake it |
| `Console.KeyKeeps` | kernel/core/console.c:282-317 | no keystroke removes or changes a committed byte; a full ring is committed; an edit line holds no newline or ^D |
| `Console.KeysKeep` | kernel/core/console.c:282-317 | nor does any sequence of keystrokes |
| `Console.KillClears` | kernel/core/console.c:282-317 | after any keys ^U empties the edit line and keeps the committed bytes |
| `Console.EraseUndoes` | kernel/core/console.c:282-317 | erase and delete undo the last ordinary key |
| `Console.EraseStops` | kernel/core/console.c:282-317 | erase and delete do nothing on an empty edit line |
| `Console.LineCommitted` | kernel/core/console.c:282-317 | ordinary keys and then return, newline or ^D commit exactly those keys and a newline or the ^D |
| `Console.FillingCommits` | kernel/core/console.c:282-317 | the key that fills the ring commits the line |
| `Console.FullTakesNothing` | kernel/core/console.c:282-317 | a full ring takes no key |
| `Console.Input.KeyPress` | kernel/core/console.c:286-315 | the ring with its wrapping indices does to committed bytes and edit line what the line discipline says; ^U clears the whole edit line |
| `Console.Input.LastOfEdit` | kernel/core/console.c:288-293 | the newline test of ^U never stops it short |
| `Console.Input.ConsoleIntr` | kernel/core/console.c:282-317 | all waiting keystrokes in order |
| `Console.Input.Next` | kernel/core/console.c:335-343 | the oldest committed byte; a ^D that ends a non-empty read stays |
| `Console.Input.ConsoleRead` | kernel/core/console.c:319-353 | delivers the committed stream in order, up to a newline, a ^D or the count; sleeps, or gives up when killed, only with nothing committed |
| `Paths.Split` | kernel/filesystem/vfs/path.c:25-48 | the slots hold the components of the path as C strings; nothing beyond them is written |
| `Paths.ToString` | kernel/filesystem/vfs/path.c:62-72 | the printed form of the components |
| `Paths.Compare` | kernel/filesystem/vfs/path.c:50-60 | equal if and only if the component lists are |
| `Paths.GetAbsolute` | kernel/filesystem/vfs/path.c:74-85 | a fresh page with the working directory's components, then the path's |
| `Paths.PartsAreParts` | kernel/filesystem/vfs/path.c:25-48 | components are non-empty and free of slashes |
| `Paths.AbsoluteDenotes` | kernel/filesystem/vfs/path.c:74-85 | a relative path after the printed directory denotes the directory's components, then its own |
| `Paths.SplitOfPrint` | kernel/filesystem/vfs/path.c:62-72 | splitting what was printed gives the list back |
| `Paths.NormalForm` | kernel/filesystem/vfs/path.c:25-72 | print after split is an idempotent normal form |
| `ShellGrammar.ParseLineSound` | program/sh/sh.c:355-368 | what the parser consumes is in the grammar, with the tree it returns |
| `ShellComplete.LineComplete` | program/sh/sh.c:355-368 | everything in the grammar is parsed, to its tree, up to the closing parenthesis or the end |
| `ShellComplete.ParseExact` | program/sh/sh.c:340-454 | a line is accepted with a tree if and only if the grammar gives it that tree |
| `ShellComplete.ParseOfPrint` | program/sh/sh.c:340-454 | parsing the fully parenthesised print of a tree gives the tree back; the trees the parser can build are exactly those with at most 9 words per simple command |
| `ShellGrammar.ExecTree` | program/sh/sh.c:381-454 | the tree of a simple command: its words, and around them its redirections, the first of the line innermost |
| `ShellGrammar.BlockTree` | program/sh/sh.c:405-418 | the tree of a block: the line in the parentheses, and around it the redirections that follow |
| `ShellGrammar.FirstRedirectionCounts` | program/sh/sh.c:108-116 | of the redirections of one descriptor the first on the line is opened last, so it is the one that counts |
| `ShellLexer.TokenSpansOk` | program/sh/sh.c:276-322 | a word token covers word characters only and ends at a separator or the end of the line |
| `ShellLexer.LexSpans` | program/sh/sh.c:276-322 | lexing by place and lexing by text agree |
| `ShellLexer.LexOfRender` | program/sh/sh.c:276-322 | lexing written-out tokens gives the tokens back |
| `ShellParser.Parser.GetToken` | program/sh/sh.c:276-322 | the next token's code and place, the cursor at the token after it |
| `ShellParser.Parser.Peek` | program/sh/sh.c:324-333 | whether the next character is one of those given; no token is lost |
| `ShellParser.Parser.ParseRedirs` | program/sh/sh.c:381-403 | the redirections here, in order; panic exactly on a missing file |
| `ShellParser.Parser.ParseArgs` | program/sh/sh.c:434-453 | words and redirections up to the end of the simple command, with the parser's panics |
| `ShellParser.Parser.ParseExec` | program/sh/sh.c:421-454 | agrees with the parser on tokens |
| `ShellParser.Parser.ParseBlock` | program/sh/sh.c:405-419 | agrees with the parser on tokens |
| `ShellParser.Parser.ParsePipe` | program/sh/sh.c:370-379 | agrees with the parser on tokens |
| `ShellParser.Parser.ParseLine` | program/sh/sh.c:355-368 | terminates on every line and agrees with the parser on tokens |
| `ShellParser.Parser.ParseAll` | program/sh/sh.c:340-350 | the tree of the whole line, or the panic; leftovers are a syntax error |
| `ShellText.LinePlaces` | program/sh/sh.c:355-454 | every word of a tree is a token of its line |
| `ShellText.NulTerminate` | program/sh/sh.c:457-501 | a NUL at the end of every word of the tree, every other character as before |
| `ShellText.ParseCmd` | program/sh/sh.c:340-353 | the NULs fall on separators or the end of the line, and each argument and file then reads as exactly its token |
| `ShellRoundTrip.ParseSpelt` | program/sh/sh.c:340-454 | parsing does not depend on where the words stand |
| `ShellRoundTrip.TextRoundTrip` | program/sh/sh.c:276-454 | writing a tree out as text and parsing it gives the tree back |

## Left out

- Driver failures inside the FAT32 driver: the volume lies inside the device, so its sector writes succeed.
- Multi-sector block transfers and concurrent cache misses: the cache is sequential, one sector at a time.
- Fat32Volume.Volume.Write: the model stops at the link that sends a file out of the volume, while the driver goes on to write at that address; `RoundsExact` covers the links of its later rounds.
- Offsets and sizes in the FAT32 model stay below 2^32.
- Fat32Ops.PathSearch: requires that every directory it looks into is a chain of the volume; the model stops where the search runs off its buffer.
- Fat32Ops.FileCreate: the directory is a chain of the volume; the model stops where the driver steps over the end of the name.
- Fat32Ops.FileRemove: requires that the file has a first cluster of its own, as every created file has.
- Fat32Ops.UpdateSize: stated for the directory the path leads to.
- `mkdir` and directory listing.
- FileDescriptor.FileDesc.Run: requires that no write starts past the end of the file, where the bytes between are whatever the disk holds; `WriteBytes` covers such writes.
- FileDescriptor.FileDesc.ReadBytes: bytes past the count returned are given no meaning.
- `kill` as a step of runs, the killed flag and the teardown of messages in `wait`: `KillCpu`, `KillWait` and `KillFamily` say which laws a kill breaks, and when.
- In `ProcTable` a section protected by the table lock is one step, init never exits, and memory and files of processes are not modelled.
- ProcTable.NeverPanics: spinlocks other than ptable.lock have no owner, so that their panics in acquire and release are not covered.
- In `SleepLock` the scan of `wakeup1` is one step under the table lock.
- The bytes of a block request's header (type and sector): only where the header is.
- Several virtio devices and the polling used during boot: there is one device, and buffers in flight are distinct and non-null.
- Boot, drivers other than the console's and the block device's, USB, PCI, graphics, networking, kernel modules, user libraries and other programs.
- PageAlloc.Kmem.KInit1: a range without a whole page is not modelled.
- AddressSpace.Machine.MapPages: requires a non-empty range that does not wrap, and page-aligned physical addresses, as its callers pass.
- AddressSpace.Machine.NewSpace: the kernel half of a new address space is not modelled.
- `freevm`, `loaduvm` and `exec`.
- Heap.Process.GrowProc: the heap does not shrink below empty, which the kernel does not check.
- In `Messages` messages are non-empty and go to a live process.
- Console.Input.ConsoleRead: echoing of characters is not modelled.
- Paths.Split: requires components below 128 bytes and a buffer with room, which the kernel does not check.
- ShellParser.Parser.ParseExec: words are collected and the redirections put around them at the end, where the shell fills in the node through a pointer; allocation of nodes is not modelled.
- Running commands, but for the order in which redirections open their files, and the shell's built-in commands.
