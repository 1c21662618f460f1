# A model of the OctoOS kernel core

OctoOS is a small 32-bit x86 kernel written in C. This project models the parts of it that carry
state across calls and proves what they keep: the FAT16 driver, the kernel heap, physical frames and
user address spaces, the ELF loader, tasks and the scheduler, the descriptor layer, and the `cp`
program on top of it. `dafny verify dfyconfig.toml` covers the whole project.

## How the model is laid out

The C code works by updating globals, arrays and disk sectors in place, so each component is a class
(or methods over one) whose contracts tie it to a mathematical value, and the theorems are about that
value.

| layer | files | state in the code | what it is tied to |
|---|---|---|---|
| FAT volume | `Options`, `Bytes`, `Arith`, `Geometry`, `Chains`, `Sectors`, `Volume`, `Mount` | 512-byte sectors, mirrored FAT copies | a cluster-to-link table and the bytes along a chain |
| FAT directories and paths | `Names`, `Tree`, `Paths`, `Effects`, `Dirents`, `Layout`, `FsState`, `FsUnique`, `FsSteps`, `OnDisk`, `DirScan`, `Driver`, `Format` | 32-byte entries in root sectors and cluster chains | a tree of directories and files |
| current directory | `Cwd`, `CwdText`, `FsRuns` | a cluster number and a text | the walk from the root along the text |
| heap | `Blocks`, `Heap`, `Payloads`, `HeapRuns`, `Buffers` | words with three-word headers | the list of blocks, and what each caller holds |
| frames, paging, ELF | `Regions`, `Frames`, `Paging`, `ElfFormat`, `Elf` | a bitmap and 4 KiB frames | owned frame sets, the x86 walk, the image the headers describe |
| tasks | `Sched`, `Tasks` | eight slots, `cr3`, `esp0` | a step machine, and who owns which frame and stack |
| descriptors | `AbsPath`, `HeapFs`, `Files`, `SlotBytes`, `Copy` | sixteen 120-byte slots whose buffers are heap blocks | the open descriptors and the stored contents |
| the whole | `Octo` | tasks, descriptors and other callers on one heap | who holds which frame, stack and buffer |
| inputs | `Inputs` | disks reached from a blank one | the exceptions below |

`FsState.Rep` is the central invariant: chains are in range, acyclic, end-marked and pairwise disjoint,
every cluster in use is in exactly one of them, every directory's entries are exactly the tree's (unique
names, nothing after the end marker, "." and ".." naming self and parent), and every file's chain holds
its contents. `FatDriver.Valid` says the disk represents the tree in this sense, and each operation is
proved to change the tree in exactly one way or not at all. A disk represents at most one tree
(`FsUnique.RepUnique`), so this is a statement about the disk and not about a choice of tree.

What the values mean is in turn stated in bytes and in terms of the hardware, without the functions the code
is proved against. `OnDisk` gives the disk address of every link, entry and file byte, with numbers read by
`Bytes.Number`; `Mount` and `ElfFormat` write boot records and ELF headers field by field, and mounting and
loading are stated for disks and files given by such records; `Paging.Translate` is the two-level walk of the
processor, with its present, user, write and page-size bits, for supervisor and user accesses alike.

The descriptor layer has no buffers of its own: a slot holds the address of a heap block, a descriptor means
the bytes found there, and the invariant of `FileTable` says which live blocks belong to which slot.
`Octo.System` puts the task table and the descriptor table on the same heap and frame pool, with the
invariant that every live block is a kernel stack, a descriptor's buffer or something the rest of the kernel
asked for, and that every open descriptor belongs to a task that has not been reaped.

## Where the code does not do what one would expect

Each of these is stated as an exact condition, with an input where it fails.

- A path that begins with two slashes: `resolve` takes off one slash and then looks up a blank name,
  `cwd_apply` takes off all of them. After such a `cd` the text and the cluster of the current directory
  agree exactly when a ".." of the path cancels the blank component (`Cwd.CdAgrees`; a tree where they part:
  `FsRuns.DoubleSlashParts`).
- The text of the current directory stops at 126 characters: it is the whole path exactly when that has no more
  (`CwdText.TextExact`). A `cd` stays inside the 128-byte buffer exactly when `CwdText.Highest`, the
  highest index it stores to, is below 128 (`CwdText.CwdApply`; nested directories with names of full length:
  the tenth text is cut, the cd into the twelfth stores behind the buffer, `CwdText.DeepCut`).
- `abs_path` stores the text of the current directory into a slot of the descriptor table before it compares
  lengths. No store leaves the slot exactly when the path is absolute or the text has fewer than 108 bytes
  (`SlotBytes.StoresContained`, where the byte behind the slot is not itself a printable character), and exactly then
  the table holds the same descriptors, except that behind the last slot there is none to change
  (`SlotBytes.OpenSpares`). Otherwise the next slot counts as used, and from 115 bytes on it is no longer its owner's (`SlotBytes.NextTaken`; nine nested
  directories, 117 bytes: `SlotBytes.ReaderLost`, reached by `CwdText.DeepText`).
- A current directory can be removed by its absolute path. A relative `mkdir` there, while its cluster is free and
  still reads as a directory, takes a cluster that no entry reaches: whenever it succeeds, the disk represents no
  tree (`Driver.FatDriver.MkdirGone`, `FsUnique.NoTreeBeside`; mkdir, cd, rm, mkdir on a blank disk:
  `Inputs.MkdirWhenGone`).
- Overwriting a non-empty file releases its old chain first. If the new data then does not fit, the entry
  keeps naming released clusters. Exactly then the disk represents no tree at all, although every directory and
  every other file is still in place (`Driver.FatDriver.WriteFile`, `FsUnique.NoTreeLeft`,
  `FsUnique.OthersStay`; a disk, reached from a blank one by one write: `Format.RefusedRewrite`).
- `ALIGN_UP` wraps for requests above 0xFFFFFFF8, which are then served with a block that is too small
  (`Blocks.AlignUpBounds`, `Blocks.MallocMeets`; a request: `Blocks.MallocWraps`).
- A region whose start is not page aligned can end below the rounded-up start of the frame pool; the frame
  count then wraps and the pool overruns (`Regions.PoolInside`; a region: `Regions.PoolOverrun`).
- A `PT_LOAD` header passes the checks of `elf_load` although its file data lies outside the image exactly
  when `p_offset + p_filesz` wraps around (`Elf.AcceptsIs`; a header: `Elf.AcceptsTooMuch`).
- `cp` of a file larger than 64 KiB reports an error, but closing the destination then stores the first
  64 KiB over whatever was there (`Copy.Cp`; a file of 65537 bytes copied to itself loses its last byte:
  `Inputs.LongCp`).

## Assumptions

- The disk is reliable: reads and writes of sectors do not fail. Disk-full, directory-full and
  out-of-memory are modelled. The methods of the volume and of the driver take as a boolean whether the heap
  supplied a buffer; `HeapFs` runs them with the real heap.
- Each heap, FAT, descriptor and task operation is one atomic step; `ctx_switch` is an atomic change of the
  running slot.
- The boot parameter block is well formed: the FAT covers every cluster, there are fewer than 0xFFF7 of
  them, and the data area lies inside the partition (`Mount.WellFormed`).
- No FAT entry is a bad-cluster mark; links of chains in use are in range.
- Paths are printable ASCII. A `cd` stays inside its buffer, and a relative open happens with a text of fewer than
  108 bytes; both conditions are exact (see above).
- A relative path is resolved while the current directory still exists.
- The 32-bit sums `e_phoff + e_phnum * e_phentsize` and, in headers that are loaded, `p_offset + p_filesz` do
  not wrap, nor does `size + n` of a descriptor write; pids are unbounded.
- A file that is read into the heap is not within seven bytes of 4 GiB; with clusters of at most 64 KiB there
  is no such file (`Driver.FatDriver.SizeFits`).
- A driver object exists only after a successful mount, so the "not mounted" checks do not appear.

## Model

| member | source | states |
|---|---|---|
| `Bytes.Rd16Is` | kernel/fat.c:54-57 | the 16-bit read is the little-endian number of its two bytes |
| `Bytes.Rd32Is` | kernel/fat.c:59-63 | the 32-bit read is that of its four bytes |
| `Bytes.LeOfRd` | kernel/fat.c:124-139 | storing a number just read gives back the bytes it was read from |
| `Geometry.FatLbaRange` | kernel/fat.c:124-139 | every sector of every FAT copy lies between the reserved sectors and the root directory |
| `Geometry.FatLbaInjective` | kernel/fat.c:124-139 | no two (copy, sector) pairs share a disk sector |
| `Geometry.ClusterRange` | kernel/fat.c:162-165 | clusters of the data area lie behind the root directory and inside the disk, and each sector belongs to one cluster only |
| `Geometry.AddressesAre` | kernel/fat.c:124-165 | the sector numbers the layout computes by repeated addition are the products of the code |
| `Mount.LayoutValid` | kernel/fat.c:97-106 | for a well-formed parameter block the computed layout is valid: FATs, root and data do not overlap and every cluster ends inside the partition |
| `Mount.MountVolume` | kernel/fat.c:65-112 | mounting succeeds exactly for a signed boot sector whose first FAT16 partition has a usable parameter block, with the layout `MountGiven` spells out |
| `Mount.MountGiven` | kernel/fat.c:65-112 | for a disk given by its partition records and the fields of its boot record: the first partition of type 4, 6 or 14 is mounted exactly when sectors have 512 bytes and the block has clusters, tables and a table size, and then reserved sectors, tables, root and data follow each other, with as many whole clusters as there is room for |
| `Chains.ReleasedIsReachable` | kernel/fat.c:153-160 | on every FAT whose links are in range, cyclic or crossing, chain_free ends and frees exactly the clusters reachable from its start |
| `Chains.ChainUnique` | kernel/fat.c:153-160 | a first cluster determines its whole chain |
| `Chains.ChainShort` | kernel/fat.c:153-160 | a chain is no longer than the table has clusters |
| `Chains.ReleasedChain` | kernel/fat.c:153-160 | releasing a proper chain frees its members and leaves every other entry alone |
| `Chains.CountReleased` | kernel/fat.c:153-160 | releasing a chain of n clusters adds n to the number of free clusters |
| `Chains.BuiltExtend` | kernel/fat.c:530-545 | linking one more free cluster behind a chain under construction gives a proper chain again, over clusters that were all free, with one free cluster fewer and every other entry as it was |
| `Chains.BuiltUndo` | kernel/fat.c:550-552 | releasing a chain just built restores every FAT entry |
| `Chains.AddChain` | kernel/fat.c:517-555 | adding a chain over free clusters keeps all chains in range, acyclic, disjoint and covering |
| `Chains.DropChain` | kernel/fat.c:153-160 | so does releasing one of them |
| `Volume.SetCopiesRefines` | kernel/fat.c:124-139 | a byte-level store into all copies is one update of the cluster-to-link map; the copies stay equal and no other sector changes |
| `Volume.FatVolume.FatGet` | kernel/fat.c:116-122 | reads the map at the cluster |
| `Volume.FatVolume.FatSet` | kernel/fat.c:124-139 | updates the map at one cluster only, and only FAT sectors |
| `Volume.FatVolume.ClusterAlloc` | kernel/fat.c:141-151 | takes the lowest free cluster and end-marks it; fails exactly when none is free, changing nothing |
| `Volume.FatVolume.ChainFree` | kernel/fat.c:153-160 | the disk loop computes the released table on any table with links in range |
| `Volume.FatVolume.ClusterZero` | kernel/fat.c:506-513 | zeroes the sectors of one cluster and nothing else |
| `Volume.FatVolume.AppendCluster` | kernel/fat.c:530-545 | one round of chain_write extends the chain and the bytes it holds, or changes nothing when the disk is full |
| `Volume.FatVolume.ChainWrite` | kernel/fat.c:517-555 | all or nothing: a chain of exactly the clusters needed, if and only if that many are free, in which byte k of the data is byte k of the chain's clusters on disk, with zeros behind the last; otherwise every FAT entry as before |
| `Volume.FatVolume.FileStream` | kernel/fat.c:393-416 | delivers the first `size` bytes along the chain, if and only if the chain is long enough and there is a buffer: byte k is byte k % 512 of sector k % cb / 512 of cluster s[k / cb], cb being the bytes of a cluster |
| `Volume.HeldOnDisk` | kernel/fat.c:517-555 | in a chain that holds data each byte lies in the cluster, sector and offset its position gives, and zeros fill the rest of the last cluster |
| `Sectors.FlattenAt` | kernel/fat.c:393-416 | byte k of a run of sectors is byte k % 512 of sector k / 512 |
| `Sectors.FileByte` | kernel/fat.c:393-416 | byte k of the bytes along a chain is byte k % 512 of sector k % cb / 512 of cluster s[k / cb] |
| `Sectors.ClustersForIsCeiling` | kernel/fat.c:529-546 | the cluster count is the ceiling of size over cluster size |
| `Sectors.FileFrame` | kernel/fat.c:393-416 | the bytes along a chain depend on the clusters of that chain only |
| `Sectors.FileAppend` | kernel/fat.c:517-555 | a cluster behind a full chain appends its bytes |
| `Names.To83` | kernel/fat.c:248-278 | computes the 8.3 name of a component, or refuses it |
| `Names.FormatName` | kernel/fat.c:234-245 | computes the printed form of a raw name |
| `Names.ParseOfFormatted` | kernel/fat.c:234-278 | every space-padded, upper-case, dot-free raw name, and "." and "..", survives format then parse |
| `Names.FormatOfParsed` | kernel/fat.c:234-278 | a valid name survives parse then format up to upper-casing if and only if it has no space and no trailing dot (or is "." or "..") |
| `Names.DotNames` | kernel/fat.c:248-278 | only "." and ".." parse to names that begin with a dot |
| `Names.NameOfUpper` | kernel/fat.c:248-278 | parsing ignores case |
| `Names.NameWithout` | kernel/fat.c:248-278 | a component without a dot is accepted up to eight characters and stored in capitals, padded with spaces |
| `Names.NameWith` | kernel/fat.c:248-278 | one with a dot exactly if at most eight characters precede it and at most three, none a dot, follow; they go to bytes 0 to 7 and 8 to 10, in capitals, padded |
| `Dirents.FindRep` | kernel/fat.c:281-309 | searching a represented table finds exactly the names of the directory, with their node |
| `Dirents.FindDots` | kernel/fat.c:281-309 | in a subdirectory "." and ".." are entries 0 and 1, naming itself and its parent |
| `Dirents.OccupiedRep` | kernel/fat.c:618-632 | the emptiness scan of fat_rm finds something exactly when the directory has entries |
| `Dirents.CreateRep` | kernel/fat.c:494-504 | an entry put in the first free slot adds exactly its name and keeps the table well formed |
| `Dirents.RewriteRep` | kernel/fat.c:485-491 | rewriting an entry in place replaces exactly its node |
| `Dirents.EraseRep` | kernel/fat.c:636-637 | marking an entry deleted removes exactly its name |
| `Dirents.FreshRep` | kernel/fat.c:664-683 | the table fat_mkdir writes is that of an empty directory with the right parent |
| `Dirents.LabelIgnored` | kernel/fat.c:226-309 | an entry with the volume bit, so also a long-name entry, might as well be a deleted one: no search finds it, and no lookup, emptiness test or tree depends on it |
| `Dirents.WithDataBytes` | kernel/fat.c:595-598 | a rewritten entry differs in cluster and size only, as little-endian numbers at 26 and 28, and in the cleared bytes 20 and 21 |
| `Dirents.MakeEntryBytes` | kernel/fat.c:664-689 | a new entry has its name, attribute, cluster and size in their places and zeros between |
| `OnDisk.LinkOnDisk` | kernel/fat.c:116-139 | link c is the little-endian number at byte 2c of every copy of the table |
| `OnDisk.ChainOnDisk` | kernel/fat.c:116-160 | along a chain each of these numbers is the next cluster, and the last is an end mark |
| `OnDisk.ByteAddress` | kernel/fat.c:162-165 | byte k of a chain is at the disk address of cluster s[k / cb], counted from cluster 2 at the start of the data area, plus k % cb |
| `OnDisk.RootEntry` | kernel/fat.c:188-224 | entry i of the root is the 32 bytes at 32 i of the root area |
| `OnDisk.SubEntry` | kernel/fat.c:188-224 | that of a subdirectory the 32 bytes at 32 i along its chain |
| `OnDisk.DirectoryOnDisk` | kernel/fat.c:226-309 | a directory has a name exactly if an entry before the end mark carries it, neither deleted nor a label; there is one such entry, and its directory bit, cluster and size are those of the node |
| `OnDisk.DotsOnDisk` | kernel/fat.c:664-683 | in a subdirectory the first two entries, and no others, begin with a dot, and they name it and its parent by cluster |
| `OnDisk.FileSpelledOut` | kernel/fat.c:393-448 | for every file of the tree the disk has, in bytes: one entry with its name, cluster and size, the links from that cluster in every table copy, and its contents along them |
| `DirScan.DirNext` | kernel/fat.c:188-224 | the iterator delivers entry after entry of the table, across sectors and clusters, with its place on disk, and stops after the last |
| `DirScan.FindEntry` | kernel/fat.c:281-309 | finds the first entry in use with the name, before the end marker |
| `DirScan.FindSlot` | kernel/fat.c:494-504 | finds the first free or deleted slot |
| `DirScan.HasChildren` | kernel/fat.c:618-632 | tells whether a table has entries besides the dots |
| `Tree.PutFileOk` | kernel/fat.c:557-599 | a write keeps the tree well formed |
| `Tree.RemoveOk` | kernel/fat.c:601-638 | so does removing a file or an empty directory |
| `Tree.MakeDirOk` | kernel/fat.c:640-690 | so does a new directory |
| `Format.FreshVolume` | kernel/fat.c:65-112 | a volume with no cluster in use and an empty root represents the empty tree, whatever the data area holds |
| `Format.BlankDisk` | kernel/fat.c:97-106 | every valid layout has such a volume, with equal table copies |
| `FsUnique.RepUnique` | kernel/fat.c:170-309 | a disk represents at most one tree, with one set of chains |
| `FsUnique.NoTreeLeft` | kernel/fat.c:579-594 | a disk on which an entry names a released first cluster represents no tree, whatever chains are assumed |
| `FsUnique.NoTreeBeside` | kernel/fat.c:659-662 | a disk with a chain in use that no entry names represents no tree either |
| `FsUnique.OthersStay` | kernel/fat.c:579-594 | every directory and every other file is nevertheless stored as before |
| `FsState.ReleaseFile` | kernel/fat.c:579-580 | releasing a file's chain keeps the representation of everything but that file |
| `FsState.AddData` | kernel/fat.c:590-594 | a new chain that no entry names yet keeps the representation |
| `FsSteps.PutStep` | kernel/fat.c:579-598 | pointing the entry at the stored data makes the disk represent the tree with that file |
| `FsSteps.RemoveStep` | kernel/fat.c:634-637 | marking the entry deleted after releasing its chain represents the tree without it |
| `FsSteps.MakeStep` | kernel/fat.c:664-689 | writing the entry of a formatted cluster represents the tree with the new directory |
| `Effects.WriteThenRead` | kernel/fat.c:557-599 | after a write the path leads to the file and reads exactly the data |
| `Effects.WriteElsewhere` | kernel/fat.c:557-599 | every other path, from any directory, reads what it read before |
| `Effects.RemoveEverywhere` | kernel/fat.c:601-638 | a path leads where it led if it does not pass the removed entry, and nowhere otherwise |
| `Effects.MakeThenFind` | kernel/fat.c:640-690 | the new directory is found under its path, empty, with the right parent |
| `Effects.MakeElsewhere` | kernel/fat.c:640-690 | no path that led anywhere is affected by a new directory |
| `Driver.FatDriver.constructor` | kernel/fat.c:65-112 | after mounting, the current directory is the root in both forms |
| `Driver.FatDriver.DirFind` | kernel/fat.c:281-309 | a lookup on disk is a step of the walk in the tree, with the synthetic dots of the root, and never ends at a volume label, long-name or deleted entry |
| `Driver.FatDriver.ResolvePath` | kernel/fat.c:318-357 | resolution on disk computes the walk of the path's components, and with `parent_of` the directory and name it ends in |
| `Driver.FatDriver.LookupFile` | kernel/fat.c:433-448 | finds the path exactly if it leads to a file, with its size |
| `Driver.FatDriver.SizeFits` | kernel/fat.c:462-481 | with clusters of at most 64 KiB every file is small enough for its buffer size not to wrap |
| `Driver.FatDriver.ReadFile` | kernel/fat.c:462-481 | delivers the contents of the file at the path, if there is one and the heap supplies the buffers: byte k is the byte of the disk at that place of the file's chain |
| `Driver.FatDriver.ReleaseOld` | kernel/fat.c:579-580 | the old chain is given up, its clusters become available, all directories stay |
| `Driver.FatDriver.StoreData` | kernel/fat.c:590-594 | stores the data in a chain of its own if and only if it fits, else no FAT entry changes |
| `Driver.FatDriver.CommitFile` | kernel/fat.c:595-598 | the entry write completes exactly the change of the tree; the 32 bytes on disk are the entry with the new cluster and size |
| `Driver.FatDriver.WriteFile` | kernel/fat.c:557-599 | succeeds if and only if the path has a place, a buffer and enough clusters; then the tree has exactly that file changed and it reads back; a refused rewrite of a non-empty file, and nothing else, leaves a disk that represents no tree, with everything but that file in place; any other refusal leaves the tree and every FAT entry |
| `Format.RefusedRewrite` | kernel/fat.c:557-599 | from a blank disk with a single cluster one write succeeds, and rewriting that file with more data is refused and leaves no tree |
| `HeapFs.WriteFile` | kernel/fat.c:517-599 | the same with the cluster buffer taken from the heap: success also needs that block, and the block list and all live payloads are as before in every case |
| `HeapFs.ReadFile` | kernel/fat.c:462-481 | a block with exactly the contents of the file, byte for byte those on disk along its chain, if and only if the heap holds it and one cluster besides; the list is that of one kmalloc, or unchanged on failure; live payloads keep their bytes |
| `Driver.FatDriver.Rm` | kernel/fat.c:601-638 | removes exactly the file or empty directory an ordinary last name leads to; outside the tables one byte of the disk changes, the first of an entry that is in use and no label, to 0xE5; otherwise refuses and changes nothing |
| `Driver.FatDriver.Mkdir` | kernel/fat.c:640-690 | succeeds if and only if there is a free name, a slot and a cluster; then the path leads to the new directory; otherwise the disk is unchanged |
| `Driver.FatDriver.MkdirGone` | kernel/fat.c:640-690 | in a removed current directory whose cluster is free: succeeds exactly for an ordinary name that is not among the left-over entries, and then the disk represents no tree; otherwise nothing changes |
| `Inputs.MkdirWhenGone` | kernel/fat.c:601-754 | mkdir A, cd A, rm /A, mkdir B on a blank disk all succeed and leave no tree |
| `Driver.FatDriver.Cd` | kernel/fat.c:739-754 | succeeds if and only if the path leads to a directory; moves the cluster there and the path to the normalised one, of which the text is the whole exactly up to 126 characters; path and cluster then agree exactly outside the double-slash case |
| `Cwd.NormalizeLeads` | kernel/fat.c:695-737 | lexical "." and ".." agree with the walk through on-disk entries, for every directory and path |
| `Cwd.CdAgrees` | kernel/fat.c:695-754 | after a cd the text leads to the current cluster if and only if the path does not begin with two slashes or a ".." cancels the blank component |
| `CwdText.CwdApply` | kernel/fat.c:695-737 | for every text and path the buffer edit, with its cut at 126 characters, computes the text of the normalised path, and the highest index it stores to is that of `Highest` or of the copied text |
| `CwdText.TextExact` | kernel/fat.c:722-729 | the text is the whole path if and only if that has at most 126 characters, and a cut text has no fewer |
| `CwdText.TextPrefix` | kernel/fat.c:722-729 | a cut text has the first 126 characters of the path, and behind them at most slashes |
| `CwdText.TextCapital` | kernel/fat.c:713-729 | the text of a path in capitals has no lower-case letter |
| `CwdText.DeepText` | kernel/fat.c:695-754 | up to nine nested directories with names of full length the text is whole, and each is reached by a cd from the one above |
| `CwdText.DeepCut` | kernel/fat.c:695-737 | the tenth text is cut, and the cd into the twelfth stores behind the buffer |
| `CwdText.TextParses` | kernel/fat.c:318-357 | resolving the text walks exactly the components it was rendered from |
| `FsRuns.RunOk` | kernel/fat.c:557-690 | over every run of writes, removals, mkdirs and cds the tree stays well formed |
| `FsRuns.RunLeads` | kernel/fat.c:695-754 | over every run that spares the current directory (and the double-slash case) its path leads to exactly its cluster, and so does resolving its text when the path has at most 126 characters |
| `FsRuns.EmptyIsLast` | kernel/fat.c:601-638 | removing an entry other than the current directory's own never cuts its path |
| `FsRuns.DoubleSlashParts` | kernel/fat.c:318-357 | a tree on which `cd //` leaves text and cluster apart |
| `Blocks.AlignUpBounds` | kernel/heap.c:54-58 | rounding up gives the next multiple of 8 if and only if the request is at most 0xFFFFFFF8, else 0 |
| `Blocks.Accounting` | kernel/heap.c:95-112 | used bytes, free bytes and 12 per block add up to the region |
| `Blocks.UsedAre` | kernel/heap.c:95-112 | the used bytes are the sizes of the blocks handed out |
| `Blocks.LargestIs` | kernel/heap.c:95-112 | the largest free size is that of a free block, and none has more |
| `Blocks.FirstFit` | kernel/heap.c:60-62 | the first free block that is large enough, or none if there is none |
| `Blocks.TakeKeeps` | kernel/heap.c:60-74 | splitting a block keeps the tiling and leaves no two free neighbours |
| `Blocks.CoalesceSeparates` | kernel/heap.c:86-92 | merging leaves no two adjacent free blocks |
| `Blocks.CoalesceLive` | kernel/heap.c:86-92 | merging touches no block in use |
| `Blocks.ReleaseKeeps` | kernel/heap.c:79-93 | kfree keeps the tiling and gives up exactly the one block |
| `Blocks.ReleaseUndoesTake` | kernel/heap.c:54-93 | freeing a fresh allocation restores the exact earlier block list |
| `Blocks.NothingLive` | kernel/heap.c:79-93 | with nothing handed out the heap is one block again |
| `Blocks.MallocMeets` | kernel/heap.c:54-77 | kmalloc fails if and only if no free block fits; it wastes under 20 bytes beyond the rounded size and meets the request unless rounding wrapped |
| `Blocks.MallocPlace` | kernel/heap.c:54-77 | the address given is twelve behind the start of a free block that is large enough, and no earlier free block is |
| `Blocks.LargestServes` | kernel/heap.c:54-112 | a request up to 0xFFFFFFF8 succeeds exactly if its rounded size is at most the largest free size reported |
| `Blocks.MallocWraps` | kernel/heap.c:54-77 | a request of 0xFFFFFFFF on a fresh heap succeeds with a block smaller than it |
| `Blocks.LiveDetermines` | kernel/heap.c:79-93 | the live blocks determine the whole block list |
| `Blocks.MembersDetermine` | kernel/heap.c:79-93 | so does their set: the order of frees leaves no trace |
| `HeapRuns.FreshHeap` | kernel/heap.c:25-52 | the state heap_init leaves, with nothing handed out, satisfies the invariant of the runs |
| `HeapRuns.RunKeeps` | kernel/heap.c:54-93 | over every run of kmalloc and kfree: the blocks tile the region, every allocation not yet freed is a live block of at least the bytes asked for (up to 0xFFFFFFF8), no two share a byte, and nothing else is live |
| `HeapRuns.GrantStays` | kernel/heap.c:54-93 | an allocation keeps its address and size over every run that does not free it |
| `Heap.CarveRep` | kernel/heap.c:60-74 | the header writes of kmalloc are the split on the list and change no other payload |
| `Heap.MergeRep` | kernel/heap.c:87-92 | the header writes of one merge are the merge on the list and change no payload |
| `Heap.KernelHeap.constructor` | kernel/heap.c:25-52 | the region starts as one free block |
| `Heap.KernelHeap.Kmalloc` | kernel/heap.c:54-77 | walking and editing the headers computes first fit on the list; no live payload changes |
| `Heap.KernelHeap.Kfree` | kernel/heap.c:79-93 | marking and merging in memory computes the coalesced list; no live payload changes |
| `Heap.KernelHeap.GetStats` | kernel/heap.c:95-112 | the statistics add up to the region, and the used bytes are the sizes of the blocks handed out |
| `Payloads.MallocPtrs` | kernel/heap.c:54-77 | kmalloc hands out one address nobody holds, or changes nothing |
| `Payloads.FreePtrs` | kernel/heap.c:79-93 | kfree takes back exactly the address given |
| `Payloads.MallocFree` | kernel/heap.c:54-93 | freeing the block just handed out gives back the exact earlier list |
| `Buffers.WordBytes` | kernel/file.c:122-123 | the four bytes of a heap word are those of its little-endian number |
| `Buffers.Poke` | kernel/file.c:122-123 | copying bytes into a live payload changes those bytes and no header or other payload |
| `Regions.Select` | kernel/heap.c:27-38 | the scan picks the first largest usable region at or above 1 MiB |
| `Regions.BestUnique` | kernel/frame.c:24-35 | there is one such region, so heap_init and frame_init choose the same |
| `Regions.HeapAndPoolDisjoint` | kernel/frame.c:22-51 | the heap ends before the frame pool begins |
| `Regions.PoolInside` | kernel/frame.c:22-51 | the pool stays inside its region and below the identity limit if and only if the rounded-up start does; always for page-aligned regions |
| `Regions.PoolFills` | kernel/frame.c:22-51 | up to 16384 frames the pool has every whole page between the heap and the end of the region |
| `Regions.PoolOverrun` | kernel/frame.c:22-51 | an unaligned region for which the frame count wraps |
| `Frames.FramePool.constructor` | kernel/frame.c:22-51 | all frames start free and the counter says so |
| `Frames.FramePool.Alloc` | kernel/frame.c:53-65 | the lowest free frame, zeroed; 0 if and only if the counter is 0; the counter always equals count minus set bits |
| `Frames.FramePool.Free` | kernel/frame.c:67-76 | clears exactly that frame's bit; addresses outside the pool and free frames are ignored |
| `Paging.PagingInit` | kernel/paging.c:17-35 | the first frame becomes the kernel directory, through which every address below 256 MiB is itself, writable and for the supervisor only, and every other is unmapped |
| `Paging.KernelTranslate` | kernel/paging.c:17-35 | the walk through a kernel directory is that identity map |
| `Paging.SpaceTranslate` | kernel/paging.c:55-94 | so is the walk through a user directory outside its 4 MiB window; inside, a mapped page leads to its leaf, writable and for the user, and any other nowhere |
| `Paging.UserReach` | kernel/paging.c:55-94 | with user rights a directory reaches exactly the mapped pages of its 4 MiB window, each through its own leaf frame and writable |
| `Paging.ReachInjective` | kernel/paging.c:80-94 | two addresses never reach the same byte |
| `Paging.Isolation` | kernel/paging.c:17-94 | a program reaches leaf frames of its own space only: no table, not the kernel directory, no frame outside the space |
| `Paging.FreeUserPages` | kernel/paging.c:42-53 | gives back every frame of the space and no other |
| `Paging.NewUser` | kernel/paging.c:55-78 | a space with four zeroed stack pages if and only if six frames are free; on failure the set of used frames is as before |
| `Paging.UserPage` | kernel/paging.c:80-94 | the frame behind an address of the image area, mapped zeroed if new; fails only outside the area or without a frame |
| `Paging.SpaceSize` | kernel/paging.c:42-53 | a space owns two table frames and one per page |
| `ElfFormat.FileHeaderFields` | kernel/elf.c:5-20 | in a file header written field by field each field the loader uses is at its offset |
| `ElfFormat.ProgramHeaderFields` | kernel/elf.c:22-31 | the same for a program header |
| `Elf.HeaderRead` | kernel/elf.c:58-81 | in a file given by its records, header i is the i-th record |
| `Elf.LoadableGiven` | kernel/elf.c:58-96 | such a file is loadable exactly if it is a little-endian 32-bit 386 executable with at least one record, its entry point lies in the image area and every record to be loaded is well placed |
| `Elf.SomeRecords` | kernel/elf.c:58-81 | every file whose header table lies inside it is given by records |
| `Elf.ImageGiven` | kernel/elf.c:35-56 | a byte of the image is the file byte of the last record with data there, or zero if there is none |
| `Elf.TouchesIs` | kernel/elf.c:42-53 | a segment touches the pages that hold a byte of its memory, and if it is empty the one its start lies inside of |
| `Elf.AcceptsIs` | kernel/elf.c:82-87 | the checks admit every well-placed segment, and others only when offset plus file size wraps |
| `Elf.AcceptsTooMuch` | kernel/elf.c:82-87 | a header that passes although its data lies outside the image |
| `Elf.ImageZero` | kernel/elf.c:35-56 | where no segment reaches, the image is zero |
| `Elf.DisjointImage` | kernel/elf.c:37-56 | a byte only one segment covers is that segment's file byte |
| `Elf.LoadPage` | kernel/elf.c:42-53 | one page shows the image after the segment, also where earlier segments share it |
| `Elf.LoadSegment` | kernel/elf.c:37-56 | one segment turns the image of the earlier ones into the image including it; fails only for want of frames |
| `Elf.ElfLoad` | kernel/elf.c:58-96 | on success the file is loadable, exactly the stack and touched pages are mapped, every byte is the image's and the entry point is that of the file's header; a loadable file, also as given by its records, fails only when frames run out before all needed pages are mapped |
| `Elf.ProgramSees` | kernel/elf.c:58-96 | the program, walking its own tables, sees exactly the image: file data of the last segment covering an address, zero elsewhere in mapped pages, nothing outside |
| `Elf.ProgramGiven` | kernel/elf.c:58-96 | the same for a file given by its records: the program sees the stack and all memory of every record to be loaded, with the file byte of the last record that has data there or zero, and below the stack only pages that hold such memory or, for an empty record, its start |
| `Sched.Boot` | kernel/task.c:20-29 | task_init establishes the invariant |
| `Sched.PickFirst` | kernel/task.c:141-148 | the slot picked is the first ready one around the table |
| `Sched.PickInOrder` | kernel/task.c:141-148 | that is the next ready slot above the current one, or else the lowest ready one |
| `Sched.ScheduleRuns` | kernel/task.c:139-161 | a switch lands on a ready task with its directory loaded and its stack in esp0, also from a new zombie |
| `Sched.ReapKeeps` | kernel/task.c:126-137 | reaping never frees the running task, the loaded directory or the stack in use |
| `Sched.RunKeeps` | kernel/task.c:20-179 | in every run task 0 stays ready, the running task is ready, its directory is loaded, esp0 is the top of its stack, and pids, directories and stacks are distinct |
| `Sched.OnePid` | kernel/task.c:103-107 | no other slot has the pid of a task |
| `Sched.ZombieNeverRuns` | kernel/task.c:139-179 | in every run a zombie's pid never runs again |
| `Sched.WaitsAtMost` | kernel/task.c:139-161 | a ready task runs within as many calls of schedule as its circular distance, whatever is spawned, exits or is reaped |
| `Sched.BoundedWaiting` | kernel/task.c:139-161 | hence within MAX_TASKS - 1 calls |
| `Tasks.FrameInvAdd` | kernel/task.c:103-107 | handing a new space to a free slot keeps used frames equal to the kernel directory plus the disjoint sets of the slots |
| `Tasks.FrameInvDrop` | kernel/task.c:131-136 | so does taking a slot's space back |
| `Tasks.LoadProgram` | kernel/task.c:64-74 | a loaded space if and only if the file is loadable and its exact number of frames is free; else the used frames are as before |
| `Tasks.Kernel.constructor` | kernel/task.c:20-29 | boot: only the kernel directory is in use |
| `Tasks.Kernel.Switch` | kernel/task.c:139-161 | the search loop and the register loads compute the machine's schedule |
| `Tasks.Kernel.Schedule` | kernel/task.c:139-161 | schedule keeps all invariants |
| `Tasks.Kernel.Exit` | kernel/task.c:168-179 | the running user task becomes a zombie, another runs, ownership does not move |
| `Tasks.Kernel.Acquire` | kernel/task.c:64-80 | space and stack, or nothing taken from frames or heap, with the exact condition |
| `Tasks.Kernel.Spawn` | kernel/task.c:49-124 | succeeds if and only if a slot, a loadable file, its frames and a heap block are there; the pid returned is that of the slot filled, which is ready, and of no other slot; a failure at any stage restores frames and block list; frames in use keep their bytes; the new task holds the loaded image |
| `Tasks.Kernel.KernelMapped` | kernel/paging.c:17-78 | in every valid state, whatever directory is loaded, the kernel finds every address below 256 MiB at itself, writable and closed to programs |
| `Tasks.Kernel.Reap` | kernel/task.c:131-136 | the frame and stack part of task_reap: a zombie's frames and stack, and no others, go back; anything else is left alone |
| `Tasks.Kernel.AllReaped` | kernel/task.c:126-137 | with every user task reaped the free count is the boot value and no stack is left in the heap |
| `Tasks.Kernel.UserStore` | kernel/paging.c:42-94 | a store of the running program through its own tables keeps all invariants and changes only a frame of its own space |
| `Tasks.Kernel.TasksIsolated` | kernel/paging.c:42-94 | in every valid state what a task reaches is a frame of its own, and of no other task, table or the kernel directory |
| `AbsPath.AbsComps` | kernel/file.c:26-41 | an accepted absolute path has the components of the current directory, whole, then those of the path |
| `AbsPath.AbsMeans` | kernel/file.c:24-41 | it resolves, from any later current directory, to what the path meant when it was opened |
| `AbsPath.AbsLimit` | kernel/file.c:26-41 | a path is accepted exactly if it has at most 95 bytes, with the current directory and a slash in front when it is relative |
| `Files.Snapshot` | kernel/file.c:43-132 | whatever calls other pids make, refused opens with a contained path included, an open descriptor stays as it is |
| `Files.FileTable.OpenFile` | kernel/file.c:51-84 | for a contained path, the first unused slot gets a heap block with the stored contents or an empty 64 KiB one, exactly when slot, path and heap allow; else no descriptor and no block changes; the bytes of all open descriptors stay |
| `SlotBytes.Prepare` | kernel/file.c:26-67 | file_open up to the lookup, on the bytes of the table: clears the slot, stores the prefix in any case and the path if it fits |
| `SlotBytes.PathStored` | kernel/file.c:26-67 | an accepted path is in the slot's buffer, and the slot is otherwise zero |
| `SlotBytes.StoresContained` | kernel/file.c:26-41 | if the byte behind the slot is no printable character, as in every used word of the table, no byte outside the slot changes if and only if the path is absolute or the text has fewer than 108 bytes |
| `SlotBytes.OpenSpares` | kernel/file.c:26-67 | the table encodes the same descriptors after these stores if and only if they are contained (or the slot is the last) |
| `SlotBytes.NextTaken` | kernel/file.c:26-49 | otherwise the next slot counts as used, and from 115 bytes on its pid is none that was there |
| `SlotBytes.ReaderLost` | kernel/file.c:26-49 | at the 117-byte text of nine nested directories a refused open takes the next slot from its owner |
| `Files.FileTable.ReadFrom` | kernel/file.c:100-112 | delivers the next bytes of the snapshot, at most what is left |
| `Files.AdmitsIs` | kernel/file.c:120-121 | the capacity test passes exactly when the bytes fit or the sum wraps around |
| `Files.FileTable.WriteTo` | kernel/file.c:114-125 | appends all bytes or none, up to 64 KiB, in the descriptor's block; no other descriptor changes |
| `Files.FileTable.Close` | kernel/file.c:86-98 | a writer's bytes become the stored contents exactly when the volume takes them; a reader's close changes nothing on the volume; the slot and its block, and no others, are free in any case |
| `Files.FileTable.CloseAll` | kernel/file.c:127-132 | afterwards no descriptor of the pid is open and no other has changed, whatever the volume did; while it holds a tree, each writer in turn has stored its bytes under its path or changed nothing |
| `Copy.WriteChunks` | kernel/file.c:114-125 | any chunking appends the concatenation |
| `Copy.ReadChunks` | kernel/file.c:100-112 | any chunking delivers consecutive bytes |
| `Copy.RoundTrip` | kernel/file.c:51-125 | written, closed, opened and read in any chunkings, the bytes come back, exactly when descriptor, heap, path and volume allow; the tree has exactly that file changed, or nothing when the store is refused, and is lost exactly if it was to replace a non-empty file; descriptors and block list are as before |
| `Copy.CopyLoop` | user/cp.c:36-46 | copies everything up to 64 KiB; longer sources stop at exactly 64 KiB with an error |
| `Copy.Cp` | user/cp.c:26-54 | succeeds if and only if both opens do, the source has at most 64 KiB and the volume takes it; then the destination holds the source; a longer source leaves its first 64 KiB there; the tree changes at the destination only, and not at all when the volume refuses; all descriptors and the block list are as before |
| `Copy.OutcomeElsewhere` | user/cp.c:26-54 | so every other path, from any directory, reads what it read before |
| `Inputs.LongCp` | user/cp.c:26-54 | a file of 65537 bytes copied to itself: an error, and its last byte is gone |
| `Copy.BothBack` | kernel/heap.c:54-93 | two blocks taken one after the other and freed in either order leave the list as it was |
| `Octo.System.Spawn` | kernel/task.c:49-124 | a task starts exactly when slot, file, frames and stack are there, and the pid returned is its own and nobody else's; no descriptor is touched |
| `Octo.System.Exit` | kernel/task.c:168-179 | a task's descriptors stay open and owned until it is reaped |
| `Octo.System.Open` | kernel/file.c:51-84 | an open by the running task, on the heap the stacks are in |
| `Octo.System.Close` | kernel/file.c:86-98 | a close gives back no stack and nothing of anyone else; a writer's bytes are stored exactly when the volume takes them, and nothing else of the tree changes |
| `Octo.System.Reap` | kernel/task.c:126-137 | all of task_reap: the zombie's descriptors are closed and its frames and stack given back, and nobody else's |
| `Octo.System.UserStore` | kernel/paging.c:42-94 | programs running between the calls break none of this |
| `Octo.System.Free` | kernel/heap.c:79-93 | nor do frees of the rest of the kernel, of addresses it holds |
| `Octo.System.WriteFile` | kernel/fat.c:557-599 | a write by the shell leaves every descriptor, task and block as it was, with the exact success and loss conditions |
| `Octo.System.Rm` | kernel/fat.c:601-638 | a removal by the shell leaves open descriptors their bytes, also those of the removed file |
| `Octo.System.Mkdir` | kernel/fat.c:640-690 | so does a mkdir, with its exact success condition |
| `Octo.System.Cd` | kernel/fat.c:739-754 | a cd leaves open descriptors the paths they were opened with |
| `Octo.System.Load` | kernel/fat.c:462-481 | a file read into the heap by the shell gets a block of its own with the contents |
| `Octo.System.Run` | kernel/shell.c:288-294 | read, spawn, free: a task that starts holds the image of exactly what is stored under the path and alone has the pid returned; the image block is given back and no descriptor notices |
| `Octo.System.NothingLeft` | kernel/task.c:126-137 | once every user task is reaped no descriptor is open, all frames but one are free and only the blocks of the rest of the kernel are live: if none, the heap is one free block again |

## Left out

- ATA, serial, keyboard, VGA, timer, interrupt and descriptor tables, boot sector, assembly stubs: port I/O and CPU setup.
- I/O errors in the middle of an operation: the disk is assumed reliable.
- Preemption inside a kernel operation: every operation is one step.
- fat_ls, fat_cat, the console, the shell and the other user programs: they only print what the modelled functions compute.
- syscall dispatch: thin routing.
- Names, arguments and exit codes of tasks, and the words task_spawn_user stores on the new kernel stack: copied text and constants.
- Argument splitting in cp: easy string scanning.
- Driver.FatDriver.ResolvePath: after the current directory has been removed, relative paths are not covered; the code then reads a released cluster as a directory. MkdirGone says what comes of a mkdir there.
- Driver.FatDriver.LookupFile: the same for a relative path.
- Driver.FatDriver.Rm: the same for a relative path.
- Driver.FatDriver.Mkdir: the same for a relative path.
- Driver.FatDriver.Cd: the same for a relative path; a cd that would store behind its buffer is excluded too, and DeepCut is one.
- CwdText.CwdApply: memory behind the 128-byte buffer is taken to be free; what a store there would overwrite is not modelled.
- HeapFs.ReadFile: the same for a relative path after the current directory was removed; a file within seven bytes of 4 GiB, which takes clusters of more than 64 KiB, is excluded.
- Driver.FatDriver.ReadFile: the heap is a pair of booleans here, one per buffer; HeapFs.ReadFile has the real heap. Relative paths after the current directory was removed are not covered.
- Driver.FatDriver.WriteFile: the heap is a boolean here; HeapFs.WriteFile has the real heap. Relative paths after the current directory was removed are not covered.
- HeapFs.WriteFile: the bytes chain_write puts in its cluster buffer are not modelled, only the block; the volume method computes the padded cluster as a value. Relative paths after the current directory was removed are not covered.
- Files.FileTable.CloseAll: what further closes store on a volume that has stopped representing a tree is left open.
- Files.FileTable.OpenFile: a relative path with a text of 108 bytes or more is excluded; OpenSpares says exactly what the table then is. Opening on a volume that has stopped representing a tree is not covered.
- Copy.RoundTrip: the same.
- Copy.Cp: the same, for either path.
- Octo.System.Open: the same.
- Octo.System.Spawn: requires that the 32-bit sums of the headers do not wrap.
- Octo.System.Run: the same.
- Files.FileTable.WriteTo: a length for which size + n wraps is excluded; AdmitsIs says exactly when the test lets it through.
- Elf.ElfLoad: requires that the 32-bit sums of the headers do not wrap; AcceptsIs says exactly what happens to one header otherwise.
- Tasks.LoadProgram: the same.
- Tasks.Kernel.Acquire: the same.
- Tasks.Kernel.Spawn: the same.
- Tasks.Kernel.Reap: without file_close_all; Octo.System.Reap has it.
- Mount.MountGiven: the layout is spelled out where the areas fit into the partition and no 32-bit sum wraps; MountVolume gives it in every case.
- Heap.KernelHeap.constructor: requires a region with room for one header, as the code assumes.
- Frames.FramePool.constructor: requires a pool inside its region; PoolInside and PoolOverrun say when that fails.
- Paging.PagingInit: requires a free frame, as the code assumes.
