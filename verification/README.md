# A model of the mbr kernel

This project models the file system, the memory manager and the threads and processes of the small x86 kernel under
`src/learn_by_doing/mbr` and proves what that code is meant to guarantee. `dafny verify dfyconfig.toml` checks all of it.

The files follow the kernel's own:

- `Words`, `Bitmaps`, `Lists`: little-endian words and sectors, `lib/bitmap.c`, `lib/list.c`.
- `Layout`, `Format`: what `partition_format` writes and `mount_partition` reads.
- `InodeTable`, `BlockMap`, `Volumes`: 76-byte inodes packed across sectors, the 12 + 1 + 128 block pointers, which pointer
  owns which sector, and the block bitmap in memory and on disk.
- `FileIo`: `file_write` and `file_read`. A file is a sequence of bytes; a write is a splice of it and a read a slice.
- `DirEntries`, `Directories`, `Lifecycle`, `NewDirs`, `Subdirs`: a directory is a finite map from names to entries spread
  over 140 blocks of 21 slots; adding, deleting and reading entries, creating and unlinking files, making and removing
  directories.
- `Paths`, `Search`: path parsing, `normalize_path`, and `search_file` as a walk over the directory tree.
- `Trees`, `TreeSteps`, `Syscalls`, `PathEffects`: the tree that all of it keeps, in which every inode has exactly one path;
  `sys_open` with `O_CREAT`, `sys_mkdir`, `sys_unlink` and `sys_rmdir` from the path to the tree that results, and what they
  mean for every other path.
- `Paging`, `Memory`, `Books`, `Arenas`, `Heaps`, `Fork`: two-level page tables reached through the self-map (Intel SDM volume
  3A, section 4.3), the frame pools and `malloc_page`/`mfree_page`, who has taken which pages, the size-class allocator on top
  of them, the kernel's heap and a process's side by side, and the address space that fork makes.
- `Scheduling`, `Threads`: the ready list, the idle thread, semaphores with barging and recursive locks, as steps of interleaved
  threads; and the same steps done on the intrusive lists of `Lists`, through each thread's one `general_tag`.
- `Processes`: fork, exit, wait and adoption, as steps of interleaved processes.

State that the kernel updates in place is a class here, with a specification of its abstract state beside it; the main
results are about every state that the operations, or the steps of any run, can lead to.

Where the code and the comments or intentions beside it differ, the model follows the code:

- `file_write` compares the end position with `>` (file.c:207). At exactly 71680 the sector index is 140, one past the table;
  and the sum wraps at 32 bits, so that 2 bytes at position 0xffffffff, which `sys_lseek` allows, pass too.
  `FileIo.GuardMissesIff` says for all positions and counts when a write gets through that must not.
- `file_read` clips a request with a sum that wraps (file.c:291). `FileIo.ClipMissesIff` says when it fails to, and `FileRead`
  what it returns then, as long as it stays within its one-sector buffer.
- `file_read` loads the indirect table only for `end_sec > 12` (file.c:317). A read that ends inside block 12 uses whatever
  pointer the memory of `all_blocks` held; and a hole is read from sector 0. `FileIo.ReadsRightIff`, `ReadsRightOnEveryDiskIff`
  and `ReadsRightOnVolumeIff` give the exact conditions under which reads are right on a disk, on all disks and on every valid
  volume.
- The remark at dir.c:144 doubts that the directory's size is right when a slot is used again. It is:
  `Directories.DirOkAfterAdd` and `DirOkAfterDelete` keep it at 24 bytes for each live entry.
- `pfree` compares with `>` (memory.c:317), which sends the first user frame to the kernel pool; `Memory.FirstUserFrame` says
  when the right bit is cleared all the same.
- `malloc_page` gives nothing back when frames run out midway (memory.c:101); `MallocPage` states exactly what is left behind.
- `sys_open` and `sys_mkdir` look only at what follows the last slash when they make something (fs.c:294, 518). If more than
  the last component is missing they make it in the directory where the search ended; `PathEffects.FoundWhereAsked` says that
  the path then leads to it if and only if the last component was the only one missing. They do not look whether the name is
  empty or taken there: `SysCreate` and `SysMkdir` say that the tree survives if and only if it is neither, and
  `NotVacantWithSlash` and `NotVacantBelow` give paths for which it does not.
- `file_create` returns -1 although it has made the file when the process's own table of open files is full (file.c:129).
- `sys_exit` takes for granted that `pid2thread` finds the parent (wait_exit.c:108), and guards only against a parent of -1. A
  process started by `process_execute` has parent 0; `Processes.ExitIsSafeIff` says that the others are all right.
- A process that exits hands its children to init without waking it; `Processes.AdoptedZombies` says when init then sleeps
  beside a hanging child.
- `allocate_block` asserts that block_bitmap_alloc did not return -1 (file.c:179). A full partition whose bitmap has clear bits
  past the end passes, and gets a sector past it; `Volumes.LowestClear` says exactly when.

Assumptions that the code makes of its callers appear as preconditions: free blocks are at hand when a file or a directory
grows (the code tests that only by that assertion), names have at most 15 bytes, a process's page tables find frames in the
kernel pool, and not all 1024 pids are in use.

## Model

| member | source | states |
|---|---|---|
| Words.UnpackPack | src/learn_by_doing/mbr/fs/file.c:197 | storing a table of 32-bit words in a sector and loading it back yields the same words |
| Words.LowByteFirst | src/learn_by_doing/mbr/fs/file.c:197 | the bytes of a stored word, lowest first |
| Bitmaps.BitOfPut | src/learn_by_doing/mbr/lib/bitmap.c:36-43 | setting or clearing one bit of a byte changes that bit and no other |
| Bitmaps.BitsOfInjective | src/learn_by_doing/mbr/lib/bitmap.c:12-14 | two byte arrays with the same bits are the same bytes |
| Bitmaps.Bitmap.Init | src/learn_by_doing/mbr/lib/bitmap.c:8-10 | all bits of this bitmap become clear; those of its neighbours in the same memory stay |
| Bitmaps.Bitmap.ScanTest | src/learn_by_doing/mbr/lib/bitmap.c:12-14 | the bit at an index, also one past the bitmap's own end |
| Bitmaps.Bitmap.Scan | src/learn_by_doing/mbr/lib/bitmap.c:16-34 | the lowest start of a run of cnt clear bits, or -1 if and only if there is none |
| Bitmaps.Bitmap.Set | src/learn_by_doing/mbr/lib/bitmap.c:36-43 | exactly one bit of the memory changes, which for an index past the end is a neighbour's |
| Bitmaps.Bitmap.TestAndSet | src/learn_by_doing/mbr/fs/file.c:18-24 | takes the lowest clear bit, or reports that all are set and changes nothing |
| Layout.FormatLayoutWellFormed | src/learn_by_doing/mbr/fs/fs.c:43-77 | the regions that formatting lays out are in order, do not overlap and end inside the partition if and only if it has at least 613 sectors; the block bitmap reaches fewer than 4096 bits past the end |
| InodeTable.DecodeEncode | src/learn_by_doing/mbr/fs/inode.c:31-81 | an inode's 76-byte record, decoded, is the inode |
| InodeTable.RecordFields | src/learn_by_doing/mbr/fs/inode.h:7-15 | the number, the size and the 13 sectors of an inode are at bytes 0, 4 and 16 to 67 of its record |
| InodeTable.WindowInTable | src/learn_by_doing/mbr/fs/inode.c:21-29 | for all 4096 inodes the one or two sectors accessed lie in the 608-sector table, and the record lies in them |
| InodeTable.OpenAfterSync | src/learn_by_doing/mbr/fs/inode.c:31-81 | after inode_sync of inode i an uncached inode_open of i yields the same fields and of any other inode what it did before, also where records straddle sectors |
| BlockMap.OwnedMeaning | src/learn_by_doing/mbr/fs/file.c:177-203 | in an owned state all non-zero pointers of all live inodes are pairwise distinct, lie in the data area and have their bit set, and every set bit is some pointer's |
| BlockMap.GrantOwned | src/learn_by_doing/mbr/fs/file.c:186-203 | storing a free sector's address in an empty pointer and setting its bit keeps ownership and touches no other inode |
| BlockMap.RevokeOwned | src/learn_by_doing/mbr/fs/dir.c:189-209 | clearing a pointer and its sector's bit keeps ownership and touches no other inode |
| BlockMap.WriteOwned | src/learn_by_doing/mbr/fs/file.c:243 | writing a data sector changes one block of the inode that owns it and nothing of any other inode |
| BlockMap.SyncOwned | src/learn_by_doing/mbr/fs/inode.c:64-81 | writing an inode's record leaves every file's blocks and every other inode's record as they were |
| Volumes.LowestClear | src/learn_by_doing/mbr/fs/file.c:30-36 | the lowest clear bit stands for a sector of the partition if and only if one of those that do is clear; with none left but clear bits past the end, block_bitmap_alloc returns one of these, which the assertion on -1 lets pass; while fewer bits are set than there are sectors that the bitmap tracks, one of theirs is clear |
| Volumes.Volume.constructor | src/learn_by_doing/mbr/fs/fs.c:21-41 | mounting reads both bitmaps as they are on disk |
| Volumes.Volume.BlockBitmapSync | src/learn_by_doing/mbr/fs/file.c:38-56 | writes the bitmap sector that holds the bit, after which disk and memory agree on the whole bitmap |
| Volumes.Volume.AllocateBlock | src/learn_by_doing/mbr/fs/file.c:30-56 | the lowest free sector, inside the partition, is taken in memory and on disk and nothing else changes |
| Volumes.Volume.AllocateFor | src/learn_by_doing/mbr/fs/file.c:177-184 | allocating for a pointer of an inode keeps the partition's invariant and uses up one free block |
| Volumes.Volume.FreeFor | src/learn_by_doing/mbr/fs/dir.c:189-204 | freeing the sector of a pointer keeps the invariant and gains one free block |
| Volumes.Volume.InodeOpen | src/learn_by_doing/mbr/fs/inode.c:31-62 | the in-core inode shows the inode's persistent state |
| Volumes.Volume.InodeSync | src/learn_by_doing/mbr/fs/inode.c:64-81 | the disk then holds the inode's state; no file's blocks and no other inode change |
| FileIo.LoadOrAllocInodeBlock | src/learn_by_doing/mbr/fs/file.c:186-203 | the block has a sector afterwards, its old contents or zeros are in the buffer, and the on-disk indirect table is current |
| FileIo.PatchBlock | src/learn_by_doing/mbr/fs/file.c:240-265 | one block is overwritten at an offset; all other blocks and files stay |
| FileIo.WriteSectors | src/learn_by_doing/mbr/fs/file.c:239-265 | first, middle and last sectors together splice the buffer into the blocks |
| FileIo.FileWrite | src/learn_by_doing/mbr/fs/file.c:205-275 | for every position and count of 32 bits that the guard treats right: past the limit -1 and no change; otherwise the file's bytes are exactly spliced, size becomes the maximum, fd_pos advances, other inodes are untouched, and exactly the missing blocks are allocated |
| FileIo.GuardMissesIff | src/learn_by_doing/mbr/fs/file.c:207-210 | the guard, whose sum wraps at 32 bits, lets a write through that ends at or past sector 140 if and only if position plus count is 71680 or from 2^32 to 2^32 + 71680 |
| FileIo.GuardMissesTwo | src/learn_by_doing/mbr/fs/file.c:207-218 | two such writes: one that ends at exactly 71680, and 2 bytes at the position that sys_lseek sets for offset -1, in sector 8388607 |
| FileIo.ContentsAfterWrite | src/learn_by_doing/mbr/fs/file.c:205-275 | on the byte sequence that a file is, an accepted write pads with zeros up to its end and replaces the bytes at its position |
| FileIo.FileRead | src/learn_by_doing/mbr/fs/file.c:277-358 | byte counts, fd_pos and bytes returned for every position and count of 32 bits but those where the code copies past its one-sector buffer: the request is clipped at the end of the file; if the sum wraps, the rest of the first sector and the start of an earlier one are returned; `stale` is what all_blocks held before |
| FileIo.ClipMissesIff | src/learn_by_doing/mbr/fs/file.c:290-294 | a request past the end of the file is not clipped if and only if position plus count is from 2^32 to 2^32 plus the size |
| FileIo.ClipMissesTwo | src/learn_by_doing/mbr/fs/file.c:290-294 | two such requests: 0xffffffff bytes from byte 100 of 1000, all copied out of one sector, and from byte 1024 of 2000, where 1023 bytes are returned and 976 are left |
| FileIo.ReadsRightIff | src/learn_by_doing/mbr/fs/file.c:313-347 | on a given disk a read returns the file's bytes, whatever block pointers the memory of all_blocks held before, if and only if every byte in a block without a sector is zero in sector 0 and, for a read that ends inside block 12, all sectors agree with that block on the bytes read |
| FileIo.ReadsRightOnEveryDiskIff | src/learn_by_doing/mbr/fs/file.c:317-347 | a read returns the file's bytes on every disk, whatever all_blocks held before, if and only if it does not end inside block 12 and meets no hole |
| FileIo.ReadsRightOnVolumeIff | src/learn_by_doing/mbr/fs/file.c:317-347 | on every valid volume, for a read that starts at or before byte 6144 and meets no hole: right, whichever sectors of that disk the stale pointers name, if and only if it does not end inside block 12 |
| FileIo.HoleFreeAllocated | src/learn_by_doing/mbr/fs/file.c:290-297 | in a file without holes every block a read within its size touches has a sector |
| DirEntries.EntryAfterPut | src/learn_by_doing/mbr/fs/dir.c:142-143 | writing an entry into a slot of a sector and reading the 21 slots back yields that entry there and the old ones elsewhere |
| DirEntries.EntryFields | src/learn_by_doing/mbr/fs/dir.h:17-21 | entry k of a sector has its name at byte 24 k, its inode number at 24 k + 16 and its type at 24 k + 20, and nothing else is written |
| DirEntries.BindingsAfterAdd | src/learn_by_doing/mbr/fs/dir.c:101-148 | filling a free slot with a new name adds exactly one binding |
| DirEntries.NamesOkIff | src/learn_by_doing/mbr/fs/dir.c:101-148 | an entry in a free slot keeps the names of a directory distinct and proper if and only if its name has 1 to 15 characters and no live entry has it |
| DirEntries.BindingsAfterDelete | src/learn_by_doing/mbr/fs/dir.c:211 | clearing a slot removes exactly its binding |
| Directories.AllocatePartBlock | src/learn_by_doing/mbr/fs/dir.c:90-98 | the new block is owned by the pointer it is for, and zeroed on disk |
| Directories.FindFreeDirEntry | src/learn_by_doing/mbr/fs/dir.c:78-88 | the first free slot of a block, or -1 if and only if all 21 are live |
| Directories.SyncDirEntry | src/learn_by_doing/mbr/fs/dir.c:101-148 | the entry goes into the first free of 2940 slots, nothing else changes but the blocks allocated on the way; it fails only if all are live, and then changes nothing |
| Directories.DirOkAfterAdd | src/learn_by_doing/mbr/fs/dir.c:141-147 | adding an entry with a new name adds exactly that binding and keeps size = 24 x live entries and no entry block without a live entry, slot reuse included |
| Directories.SearchDirEntry | src/learn_by_doing/mbr/fs/dir.c:29-69 | found if and only if the name is bound, and then the entry is the one it is bound to |
| Directories.DeleteDirEntry | src/learn_by_doing/mbr/fs/dir.c:150-219 | clears the one slot that names the inode, freeing an emptied block and an emptied indirect table; false if and only if no slot names it |
| Directories.DirOkAfterDelete | src/learn_by_doing/mbr/fs/dir.c:184-218 | deleting an entry removes exactly its binding and keeps the directory in order |
| Directories.DirIsEmpty | src/learn_by_doing/mbr/fs/dir.c:257-265 | in a directory in order: true if and only if no slot after the first two is live, and then blocks 1 to 12 are absent as dir_remove asserts |
| Directories.EmptyMeans | src/learn_by_doing/mbr/fs/dir.c:257-265 | in a directory in order the size is two entries if and only if only the first two slots are live, and then blocks 1 to 12 are absent as dir_remove asserts |
| Directories.DirRead | src/learn_by_doing/mbr/fs/dir.c:222-255 | the live entry at the position, in slot order, and the position advances; past the last one NULL for ever; the position assertion holds also with missing blocks |
| Directories.ReadAll | src/learn_by_doing/mbr/fs/dir.c:222-255 | reading from position 0 yields every live entry exactly once, in slot order, then NULL |
| Lifecycle.BitMeansUsed | src/learn_by_doing/mbr/fs/inode.c:116-142 | a block's bit is set if and only if some pointer of a live inode names it |
| Lifecycle.ReleasedBits | src/learn_by_doing/mbr/fs/inode.c:125-142 | releasing an inode clears exactly the bits of the sectors it owned, indirect table included |
| Lifecycle.InodeRelease | src/learn_by_doing/mbr/fs/inode.c:116-146 | the inode and its sectors become free, on disk too, its assertions hold and every other inode is untouched |
| Lifecycle.InodeBitmapAlloc | src/learn_by_doing/mbr/fs/file.c:26-28 | the lowest free inode number, or -1 if and only if all 4096 are taken |
| Lifecycle.GetFreeSlotInGlobal | src/learn_by_doing/mbr/fs/file.c:58-64 | the lowest free slot of the table of open files, or -1 if and only if all 32 are taken |
| Lifecycle.PcbFdInstall | src/learn_by_doing/mbr/fs/file.c:66-77 | the process's lowest free entry from 3 on gets the slot's index, or -1 and no change if and only if there is none |
| Lifecycle.FileCreate | src/learn_by_doing/mbr/fs/file.c:79-143 | makes nothing, and restores the inode bitmap and the tables, if and only if all inode numbers or all slots of the table of open files are taken or the directory is full; otherwise a new empty inode, one directory entry for it in memory and on disk, the lowest free slot, and the process's lowest free descriptor if it has one |
| Lifecycle.Unlink | src/learn_by_doing/mbr/fs/fs.c:409-449 | the entry that names the inode goes, the inode and its sectors are released, all else stays |
| Lifecycle.AddThenDelete | src/learn_by_doing/mbr/fs/dir.c:101-219 | adding an entry and deleting it again restores the directory's inode and all its slots |
| Lifecycle.CreateThenUnlink | src/learn_by_doing/mbr/fs/fs.c:409-449 | creating a file and unlinking it restores every inode, the block bitmap and the directory |
| Format.LoadSuperSector | src/learn_by_doing/mbr/fs/fs.c:59-99 | a super block written to its sector and read back is the same, with its fields at the offsets of struct super_block |
| Format.FormatAndMount | src/learn_by_doing/mbr/fs/fs.c:21-135 | any partition of at least 613 sectors, freshly formatted and mounted with the super block read back from it, satisfies the invariant, and its root directory is in order with just "." and ".." |
| Paths.PathParse | src/learn_by_doing/mbr/fs/fs.c:137-160 | skips slashes and splits off the first component, which fits the buffer given for it; the rest is what follows it |
| Paths.PathDepthCnt | src/learn_by_doing/mbr/fs/fs.c:162-174 | the number of non-empty components |
| Paths.ComponentsOfJoined | src/learn_by_doing/mbr/fs/fs.c:137-160 | joining components with slashes and parsing them again yields the same components |
| Paths.NormalizedMeaning | src/learn_by_doing/mbr/shell/buildin_cmd.c:8-32 | the normal form has no empty, "." or ".." component and is its own normal form |
| Paths.NormalizedEmpty | src/learn_by_doing/mbr/shell/buildin_cmd.c:8-12 | the empty path becomes the root |
| Paths.NormalizedDot | src/learn_by_doing/mbr/shell/buildin_cmd.c:16 | "/." at the end of a path changes nothing |
| Paths.NormalizedDotDot | src/learn_by_doing/mbr/shell/buildin_cmd.c:17-25 | "/.." at the end drops the last component of the normal form, and nothing at the root |
| Paths.NormalizedName | src/learn_by_doing/mbr/shell/buildin_cmd.c:27-28 | a slash and any other name at the end add that component; with the three laws before it this determines the components of every normal form |
| Paths.NormalizedText | src/learn_by_doing/mbr/shell/buildin_cmd.c:8-32 | the normal form is "/", or starts with a slash, does not end in one and has no two in a row |
| Paths.NormalizePath | src/learn_by_doing/mbr/shell/buildin_cmd.c:8-32 | the buffer holds the fold of the components over a stack in which "." skips, ".." pops and the root absorbs |
| Search.SearchFile | src/learn_by_doing/mbr/fs/fs.c:176-243 | on a path that starts with a slash: the inode that folding directory lookup over the components reaches, or -1 exactly when a component is missing or a regular file comes before the end; parent_dir, file_type and early_exit as that walk determines |
| Search.WalkPath | src/learn_by_doing/mbr/fs/fs.c:199-243 | the loop refines the walk over the directory tree component by component |
| Paging.SelfMap | src/learn_by_doing/mbr/kernel/memory.c:53-63 | pde_ptr translates to the active directory's entry for an address, and pte_ptr to its page-table entry if there is a table |
| Paging.EntryWritable | src/learn_by_doing/mbr/kernel/memory.c:86-91 | the words that page_table_add stores have bits 0, 1 and 2 set: present, writable, user |
| Paging.OpenMeans | src/learn_by_doing/mbr/kernel/memory.c:79-92 | while all present entries of the tables and of the directory have these bits, user code may read and write every mapped page, at both levels |
| Paging.SelfMapIff | src/learn_by_doing/mbr/kernel/memory.c:53-63 | pde_ptr and pte_ptr are right for all addresses if and only if the directory's last entry is present and names the directory itself |
| Paging.PdePtrRightIff | src/learn_by_doing/mbr/kernel/memory.c:60-63 | pde_ptr alone is right for all addresses if and only if the directory's last entry names a frame whose own last entry names the directory |
| Paging.PdePtrRightWithoutSelf | src/learn_by_doing/mbr/kernel/memory.c:60-63 | so it is right, and pte_ptr is not, when two frames' last entries name each other |
| Paging.StorePte | src/learn_by_doing/mbr/kernel/memory.c:91 | replacing a page-table entry changes the mapping of that page and no other |
| Paging.InstallTable | src/learn_by_doing/mbr/kernel/memory.c:84-89 | installing a zeroed frame as a page table changes no mapping |
| Memory.PoolsOfMachine | src/learn_by_doing/mbr/kernel/memory.c:171-202 | the pools of the 32 MB machine: 3840 frames each |
| Memory.FirstUserFrame | src/learn_by_doing/mbr/kernel/memory.c:314-323 | pfree compares with >, so it looks the first user frame up in the kernel pool; it clears the right bit if and only if the kernel pool has a multiple of 8 frames, and every other user frame's bit always |
| Memory.Manager.Palloc | src/learn_by_doing/mbr/kernel/memory.c:70-76 | the pool's lowest free frame is taken, or 0 if and only if none is free |
| Memory.Manager.PageTableAdd | src/learn_by_doing/mbr/kernel/memory.c:78-92 | through the self-map: the page and no other is mapped, a page table is made from a free kernel frame exactly if there was none, other pages keep mapping and contents, and the assertion on the entry holds; the entries of the page at both levels have the bits present, writable and user set, and so have those of every other mapped page |
| Memory.Manager.VaddrGet | src/learn_by_doing/mbr/kernel/memory.c:35-51 | takes the lowest run of free addresses, or returns 0 if and only if there is none |
| Memory.Manager.MallocPage | src/learn_by_doing/mbr/kernel/memory.c:94-107 | succeeds if and only if there are enough addresses in a row and enough frames; then the lowest run is mapped to distinct frames that were free; when frames run out midway it states exactly what is left behind; it needs a kernel frame just for each page table missing over the pages it maps; every mapped page is open to user code at both levels |
| Memory.MappedIsOpen | src/learn_by_doing/mbr/kernel/memory.c:79-92 | in a sound state the words of memory that map a page, in the directory and in its table, have bits 0, 1 and 2 set |
| Memory.Manager.AddrV2P | src/learn_by_doing/mbr/kernel/memory.c:65-68 | the physical address that a mapped address stands for |
| Memory.Manager.Pfree | src/learn_by_doing/mbr/kernel/memory.c:314-323 | clears exactly the bit of that frame, the first user frame included |
| Memory.Manager.MfreePage | src/learn_by_doing/mbr/kernel/memory.c:325-360 | exactly these pages are unmapped, their frames' bits and their address bits cleared, the assertions hold and the invariant is kept |
| Memory.EnoughRoom | src/learn_by_doing/mbr/kernel/memory.c:79-92 | for the page tables that a call for cnt pages needs, cnt / 1024 + 2 free kernel frames are always enough |
| Memory.FreeUndoesMalloc | src/learn_by_doing/mbr/kernel/memory.c:94-107 | mfree_page after a successful malloc_page restores addresses, mappings and frame bits, exactly for the kernel and but for new page tables for a process |
| Memory.SoundInitially | src/learn_by_doing/mbr/kernel/memory.c:171-202 | with nothing mapped and the boot tables below the pools the invariant holds |
| Arenas.BlockInverse | src/learn_by_doing/mbr/kernel/memory.c:209-215 | block2arena inverts arena2block for every block of every class, and the block lies behind the header within the page |
| Arenas.LiveBlocksApart | src/learn_by_doing/mbr/kernel/memory.c:217-310 | blocks handed out are as long as asked for and pairwise disjoint |
| Arenas.HeadersApart | src/learn_by_doing/mbr/kernel/memory.c:209-215 | no block handed out meets an arena's header |
| Arenas.FreeBlocksApart | src/learn_by_doing/mbr/kernel/memory.c:288-304 | no block handed out meets a block on a free list, where the list's links are |
| Arenas.AllFree | src/learn_by_doing/mbr/kernel/memory.c:383-387 | an arena's count is full if and only if all its blocks are on the free list, as sys_free asserts |
| Arenas.TakeOk | src/learn_by_doing/mbr/kernel/memory.c:299-308 | taking the first free block keeps the heap's invariant, counts included |
| Arenas.PutOk | src/learn_by_doing/mbr/kernel/memory.c:381-382 | giving a block back keeps the heap's invariant, counts included |
| Arenas.DropOk | src/learn_by_doing/mbr/kernel/memory.c:383-390 | dissolving a wholly free arena keeps the heap's invariant |
| Arenas.FindClass | src/learn_by_doing/mbr/kernel/memory.c:254-258 | the one smallest class whose blocks are large enough |
| Arenas.PerArenaIsMost | src/learn_by_doing/mbr/kernel/memory.c:400 | an arena has as many blocks as fit behind the header, and not one more |
| Arenas.Allocator.constructor | src/learn_by_doing/mbr/kernel/memory.c:395-404 | seven empty free lists satisfy the invariant |
| Arenas.Allocator.SysMalloc | src/learn_by_doing/mbr/kernel/memory.c:217-310 | returns a block that was not handed out, or 0 if and only if the size is 0 or not below the pool's or pages are needed and cannot be mapped; a failed call leaves the heap as it was, and the account intact unless malloc_page has used up frames; for the kernel no page table is made; a block of more than 1024 bytes takes the pages that PagesFor says and starts behind a header, and with a block at hand no page is taken |
| Arenas.Allocator.PagesFor | src/learn_by_doing/mbr/kernel/memory.c:240 | a large block takes the fewest pages that hold it and the header, an arena one |
| Arenas.Allocator.PoolSizeIs | src/learn_by_doing/mbr/kernel/memory.c:225-236 | the size that a request must stay below is that of all frames of the heap's own pool |
| Arenas.Allocator.SysFree | src/learn_by_doing/mbr/kernel/memory.c:362-393 | the block is no longer handed out, a wholly free arena's pages go back, no page table comes or goes, the assertions hold and the invariant is kept |
| Arenas.HeapConserved | src/learn_by_doing/mbr/kernel/memory.c:217-393 | when everything has been freed and no mapping failed midway, all seven lists are empty, no arena is left, and of the pages that were out just those of others are; without others the addresses, the mappings and the user pool are those at first, the kernel pool has in addition just the frames that hold page tables which the directory lacked at first, and if no page table was made all frames are those at first |
| Books.Account.TakePages | src/learn_by_doing/mbr/kernel/memory.c:94-107 | malloc_page for one of several users: the pages join the account, which stays balanced, and nothing mapped before changes; a call for the kernel's pool makes no page table, and the frames of the tables that one for a process makes are new ones of the kernel pool |
| Books.TablesAre | src/learn_by_doing/mbr/kernel/memory.c:79-92 | in a balanced account a frame counts as a page table's if and only if an entry of the active directory, empty at first, now leads to it, and it is one of the kernel pool; none counts if and only if the directory's tables are those at first |
| Books.Account.GivePages | src/learn_by_doing/mbr/kernel/memory.c:325-360 | mfree_page for one of several users: the pages leave the account, which stays balanced, and nothing else mapped changes |
| Books.OwnGrows | src/learn_by_doing/mbr/kernel/memory.c:94-107 | after malloc_page the state is still the first one plus exactly the pages in the account |
| Books.OwnShrinks | src/learn_by_doing/mbr/kernel/memory.c:325-360 | and after mfree_page |
| Arenas.Allocator.Undisturbed | src/learn_by_doing/mbr/kernel/memory.c:217-393 | whatever others do with pages of theirs leaves a heap in order |
| Heaps.TwoHeaps.SysMalloc | src/learn_by_doing/mbr/kernel/memory.c:217-310 | an allocation from the kernel's heap or the process's leaves both in order and the other's blocks alone; the block is new; 0 comes back if and only if the size is 0 or not below the pool's or pages are needed and cannot be mapped, and the account stays intact unless malloc_page has used up frames |
| Heaps.TwoHeaps.SysFree | src/learn_by_doing/mbr/kernel/memory.c:362-393 | and so does freeing a block |
| Heaps.TwoHeaps.Conserved | src/learn_by_doing/mbr/kernel/memory.c:217-393 | after any calls on the two heaps, with every block freed and no mapping failed midway, addresses, mappings and the user pool's frames are those at first, and the kernel pool's but for the page tables that the process's calls made; if all calls were for the kernel's heap, all frames are those at first |
| Lists.List.constructor | src/learn_by_doing/mbr/lib/list.c:6-11 | an empty list between its sentinels |
| Lists.List.InsertBefore | src/learn_by_doing/mbr/lib/list.c:13-20 | the links realize the sequence with the element inserted |
| Lists.List.Push | src/learn_by_doing/mbr/lib/list.c:22-24 | the element comes first |
| Lists.List.Append | src/learn_by_doing/mbr/lib/list.c:30-32 | the element comes last |
| Lists.List.Remove | src/learn_by_doing/mbr/lib/list.c:34-39 | the links realize the sequence without the element |
| Lists.List.Pop | src/learn_by_doing/mbr/lib/list.c:41-45 | the first element comes off |
| Lists.List.Empty | src/learn_by_doing/mbr/lib/list.c:47-49 | whether the sequence is empty |
| Lists.List.Len | src/learn_by_doing/mbr/lib/list.c:51-59 | the sequence's length |
| Lists.List.Find | src/learn_by_doing/mbr/lib/list.c:73-81 | whether the element is in the sequence |
| Scheduling.ScheduleOk | src/learn_by_doing/mbr/thread/thread.c:117-142 | wherever schedule may be called its assertions and the one in its unblocking of the idle thread hold, it finds a thread, and then exactly one runs |
| Scheduling.StepKeepsInv | src/learn_by_doing/mbr/kernel/sync.c:12-57 | every step of every thread keeps the invariant of scheduler and locks, and every assertion on the way holds |
| Scheduling.RunsAreSound | src/learn_by_doing/mbr/kernel/sync.c:12-57 | in every run, whatever the interleaving, no assertion fails and the invariant holds throughout |
| Scheduling.InvInitially | src/learn_by_doing/mbr/thread/thread.c:201-211 | the first state satisfies the invariant, whichever READY threads thread_init has queued |
| Scheduling.MutualExclusion | src/learn_by_doing/mbr/kernel/sync.c:39-57 | in every run at most one thread is between acquire and final release; holder and holder_repeat_nr name it and count its acquires |
| Scheduling.NoLostWakeup | src/learn_by_doing/mbr/kernel/sync.c:12-31 | in every run, while a lock is free and threads wait, a woken thread has yet to test it again and is ready or running |
| Scheduling.WaitersChange | src/learn_by_doing/mbr/kernel/sync.c:12-31 | a step takes the first of a lock's waiters if it is a sema_up on it; otherwise they stay, or the running thread comes last |
| Scheduling.WaitsInTurn | src/learn_by_doing/mbr/kernel/sync.c:12-31 | in every run the thread at position k of the waiters moves up by one with every sema_up on the lock and by nothing else |
| Scheduling.WokenInTurn | src/learn_by_doing/mbr/kernel/sync.c:22-31 | and the (k + 1)-th sema_up wakes it: READY, first on the ready list, about to test again |
| Scheduling.FirstToSleepIsFirstWoken | src/learn_by_doing/mbr/kernel/sync.c:12-31 | in every run, as long as a thread sleeps on a lock, none that went to sleep on it later is woken |
| Scheduling.SleepChanges | src/learn_by_doing/mbr/thread/thread.c:157-180 | only the running thread goes to sleep, with the status that thread_block is given; a sleeper's status changes only when it is woken, and then to READY |
| Scheduling.CountChanges | src/learn_by_doing/mbr/kernel/sync.c:39-57 | a step changes how often a thread holds a lock only when its lock_acquire returns, by one more, or when it begins a lock_release, by one less |
| Scheduling.AcquireReturnsHolding | src/learn_by_doing/mbr/kernel/sync.c:39-48 | in every run lock_acquire returns only to a thread that is the lock's holder then, with the semaphore taken and counted once more than before |
| Scheduling.AcquireWhenFree | src/learn_by_doing/mbr/kernel/sync.c:39-48 | a thread that calls lock_acquire on a free lock and is not interrupted holds it once, and nothing else has changed |
| Scheduling.AcquireAgain | src/learn_by_doing/mbr/kernel/sync.c:45-47 | a nested lock_acquire counts one more and changes nothing else |
| Scheduling.ReleaseOnce | src/learn_by_doing/mbr/kernel/sync.c:50-53 | a lock_release that is not the last one counts one less and changes nothing else |
| Scheduling.ReleaseLast | src/learn_by_doing/mbr/kernel/sync.c:50-57 | the last one, not interrupted, leaves the lock free and the first waiter woken |
| Scheduling.ListsAreSound | src/learn_by_doing/mbr/thread/thread.c:117-178 | in every run exactly one thread is RUNNING, the ready list holds the READY ones once each, and nobody is on two lists |
| Scheduling.RunsInTurn | src/learn_by_doing/mbr/thread/thread.c:117-142 | the thread at position k of the ready list runs after k + 1 calls of schedule if nobody is woken meanwhile |
| Scheduling.ComersToReady | src/learn_by_doing/mbr/thread/thread.c:93-180 | in every run a woken thread comes to the front of the ready list and a new one to its end |
| Scheduling.ReadyInTurn | src/learn_by_doing/mbr/thread/thread.c:117-142 | in every run, of two threads on the ready list the one in front runs first |
| Threads.Kernel.constructor | src/learn_by_doing/mbr/thread/thread.c:201-211 | thread_init, with any threads queued, and lock_init leave linked lists that share no element, and a state that satisfies the invariant |
| Threads.Kernel.Append | src/learn_by_doing/mbr/lib/list.c:30-32 | a thread's tag that is on no list comes last on one; all lists stay linked and apart |
| Threads.Kernel.Push | src/learn_by_doing/mbr/lib/list.c:22-24 | or first |
| Threads.Kernel.Pop | src/learn_by_doing/mbr/lib/list.c:41-45 | the first thread comes off the links of its list and is then on none |
| Threads.Kernel.ThreadUnblock | src/learn_by_doing/mbr/thread/thread.c:169-178 | on the links: the thread, which elem_find does not find, becomes READY and first on the ready list, once; all other threads and lists stay |
| Threads.Kernel.Schedule | src/learn_by_doing/mbr/thread/thread.c:117-142 | on the links: the state after schedule, up to the switch, with its assertions; exactly one thread runs |
| Threads.Kernel.ThreadBlock | src/learn_by_doing/mbr/thread/thread.c:157-167 | on the links: the state after thread_block, up to the switch |
| Threads.Kernel.SemaDown | src/learn_by_doing/mbr/kernel/sync.c:12-20 | on the links: one test of the semaphore, taken or the thread waits; the invariant is kept |
| Threads.Kernel.SemaUp | src/learn_by_doing/mbr/kernel/sync.c:22-31 | on the links: the semaphore is free and the first waiter woken; the assertion on value holds |
| Threads.Kernel.LockStep | src/learn_by_doing/mbr/kernel/sync.c:39-57 | the single accesses of lock_acquire and lock_release around the semaphore, with the assertion on holder_repeat_nr |
| Threads.Kernel.LockRelease | src/learn_by_doing/mbr/kernel/sync.c:50-54 | the holder is asserted and counted down |
| Threads.Kernel.ThreadStart | src/learn_by_doing/mbr/thread/thread.c:93-107 | a new thread's tag, which elem_find does not find, comes last on the ready list |
| Threads.Kernel.ThreadExit | src/learn_by_doing/mbr/thread/thread.c:219-225 | a hanging thread is not on the ready list when it is taken away |
| Threads.Kernel.Step | src/learn_by_doing/mbr/kernel/sync.c:12-57 | every step of every run is done on the linked lists, which stay in order and apart, and gives the state that the step relation says |
| Threads.Kernel.LinksAre | src/learn_by_doing/mbr/lib/list.c:13-39 | along next from a list's head, and along prev from its tail, come the tags of the threads on it, in order |
| Threads.Kernel.OnOneList | src/learn_by_doing/mbr/thread/thread.c:117-178 | no thread's general_tag is on two lists, or twice on one |
| Threads.Kernel.WhereTagsAre | src/learn_by_doing/mbr/thread/thread.c:117-178 | a thread's general_tag is on the ready list exactly while it is READY, and on a lock's waiters exactly while it sleeps in sema_down on that lock |
| Processes.StepKeepsInv | src/learn_by_doing/mbr/userprog/wait_exit.c:19-113 | every step of fork, exit and wait keeps the invariant and finds the processes it looks for |
| Processes.RunsAreSound | src/learn_by_doing/mbr/userprog/wait_exit.c:19-113 | in every run every step is safe and every state is sound |
| Processes.InvInitially | src/learn_by_doing/mbr/thread/thread.c:201-211 | init alone satisfies the invariant |
| Processes.ParentsLive | src/learn_by_doing/mbr/userprog/wait_exit.c:80-110 | in every run a forked process's parent is on the list |
| Processes.WaitingMeansNoneHangs | src/learn_by_doing/mbr/userprog/wait_exit.c:31-37 | in every run a process other than init that sleeps in sys_wait has a child and no hanging child |
| Processes.WokenWaitReturns | src/learn_by_doing/mbr/userprog/wait_exit.c:19-39 | once woken, sys_wait returns a child: it sleeps at most once a call |
| Processes.StatusIsTheChilds | src/learn_by_doing/mbr/userprog/wait_exit.c:22-30 | a status goes only to the child's parent at that time and is the one that very process passed to sys_exit earlier |
| Processes.StatusReturnedOnce | src/learn_by_doing/mbr/userprog/wait_exit.c:22-30 | no process's status is returned twice in a run |
| Processes.PidsAreNotReused | src/learn_by_doing/mbr/thread/thread.c:46-52 | a pid stays with its process until sys_wait takes it away, and a pid that is allocated belongs to nobody |
| Processes.AdoptedZombies | src/learn_by_doing/mbr/userprog/wait_exit.c:80-86 | sleeping init has a hanging child after an exit if and only if it had one or the exiting process had, and it is not woken for it |
| Processes.AnswerIs | src/learn_by_doing/mbr/userprog/wait_exit.c:19-39 | a pass of sys_wait returns a hanging child with its status, or -1 if and only if there is no child, or sleeps |
| Processes.OldestFirst | src/learn_by_doing/mbr/userprog/wait_exit.c:20-30 | in every run, of several hanging children sys_wait returns the oldest |
| Processes.StatusChanges | src/learn_by_doing/mbr/userprog/wait_exit.c:19-113 | a process goes to sleep only in its own sys_wait with children of which none hangs, is woken exactly by the end of a child, init too, and hangs exactly by its own end |
| Processes.ExitWakesParent | src/learn_by_doing/mbr/userprog/wait_exit.c:108-112 | in every run the parent of a process that has ended, init too, is on the list and runnable, and its next pass of sys_wait returns a child |
| Processes.ForkMakesChild | src/learn_by_doing/mbr/userprog/fork.c:135-151 | in every run sys_fork's result is the pid of a new runnable process on the list, a child of the caller, whose sys_wait then does not answer -1 |
| Processes.StepsChangeParents | src/learn_by_doing/mbr/userprog/wait_exit.c:80-105 | the children of a process that calls sys_exit become init's, and no other parent changes |
| Processes.ParentOfForked | src/learn_by_doing/mbr/userprog/fork.c:21 | in every run a forked process is a child of the process that forked it until that one calls sys_exit, and of init from then on |
| Processes.Table.AllocatePid | src/learn_by_doing/mbr/thread/thread.c:46-52 | the lowest free pid is taken |
| Processes.Table.ReleasePid | src/learn_by_doing/mbr/thread/thread.c:213-217 | the pid is free again |
| Processes.Table.SysForkBegin | src/learn_by_doing/mbr/userprog/fork.c:15-25 | the child's pid is allocated and belongs to nobody else |
| Processes.Table.SysForkEnd | src/learn_by_doing/mbr/userprog/fork.c:15-25 | the child joins the list, with the forking process as its parent |
| Processes.Table.SysWaitPass | src/learn_by_doing/mbr/userprog/wait_exit.c:19-39 | one pass of the loop, up to the switch if it sleeps |
| Processes.Table.ThreadExit | src/learn_by_doing/mbr/thread/thread.c:219-232 | the process leaves the list and its pid is released |
| Processes.Table.SysExitBegin | src/learn_by_doing/mbr/userprog/wait_exit.c:100-105 | the status is stored and all children go to init |
| Processes.Table.SysExitEnd | src/learn_by_doing/mbr/userprog/wait_exit.c:108-112 | the parent is found and woken if it sleeps in sys_wait; the process hangs |
| Processes.ExitIsSafeIff | src/learn_by_doing/mbr/userprog/wait_exit.c:108-109 | the end of sys_exit finds the parent whose status it reads if and only if the process has one |
| Processes.ExitWithoutParent | src/learn_by_doing/mbr/userprog/wait_exit.c:108-109 | so it does not for a process that process_execute has just started |
| NewDirs.NewDirOk | src/learn_by_doing/mbr/fs/fs.c:472-490 | a directory as it is made is in order and holds "." for itself and ".." for its parent in its first two slots |
| Subdirs.AllocDirectoryInode | src/learn_by_doing/mbr/fs/fs.c:456-493 | the lowest free inode becomes a directory with "." and ".." in one new sector, on disk too, and no other inode is touched; -1 if and only if all inodes are taken |
| Subdirs.BornIsDirectory | src/learn_by_doing/mbr/fs/fs.c:472-490 | the new inode is a directory in order that binds exactly "." and ".." |
| Subdirs.MakeDirectory | src/learn_by_doing/mbr/fs/fs.c:520-545 | a new directory and then its entry in the parent's first free slot |
| Subdirs.MakeDirectoryMeans | src/learn_by_doing/mbr/fs/fs.c:495-557 | with a new name the parent stays in order and gains exactly that binding, and the new directory is in order with "." and ".." |
| Subdirs.RemoveDirectory | src/learn_by_doing/mbr/fs/fs.c:605-637 | succeeds if and only if only "." and ".." are live; then dir_remove's assertion holds, the parent's entry goes and the inode is released; otherwise nothing changes |
| Subdirs.MakeThenRemove | src/learn_by_doing/mbr/fs/dir.c:261-275 | making a directory and removing it restores every inode, the block bitmap and the parent's slots |
| Fork.NewTables | src/learn_by_doing/mbr/userprog/process.c:97-112 | a directory filled in like that maps the kernel's pages as the active one does and no user page |
| Fork.CreatePageDir | src/learn_by_doing/mbr/userprog/process.c:97-112 | through the self-map and the page's own address: a fresh kernel page becomes a directory that shares entries 768 to 1022 with the active one, refers to itself and has no user page; both address spaces are sound |
| Fork.GetAPage | src/learn_by_doing/mbr/kernel/memory.c:149-162 | the page and no other is mapped, to a user frame that was free, and is writable for user code at both levels |
| Fork.CopyKeepsTwo | src/learn_by_doing/mbr/userprog/fork.c:40-60 | copying one page adds just that page to the new address space, with the contents given, and leaves the active one as it was; both stay sound and apart |
| Fork.CopyBody | src/learn_by_doing/mbr/userprog/fork.c:40-60 | after the loops exactly the pages recorded in the address bitmap have been copied |
| Fork.CopyProcess | src/learn_by_doing/mbr/userprog/fork.c:101-146 | the child's address space holds exactly the parent's recorded user pages with equal contents in frames of its own, shares the kernel's entries 768 to 1022, and the parent's is unchanged; in both, every mapped page is open to user code at both levels |
| Trees.ShapeAdd | src/learn_by_doing/mbr/fs/file.c:79-143 | a new file under a new name keeps the shape of the tree: every entry names a live inode, ".." the parent, and every inode but the root has exactly one proper name |
| Trees.ShapeMake | src/learn_by_doing/mbr/fs/fs.c:520-545 | so does a new directory, a level below its parent |
| Trees.ShapeRemove | src/learn_by_doing/mbr/fs/fs.c:443-446 | so does removing a file, or a directory with nothing but its dots |
| Trees.TreeIsWalkable | src/learn_by_doing/mbr/fs/fs.c:176-243 | in such a tree every directory that a path walk can come to is in order, which is what search_file relies on |
| Trees.OnePath | src/learn_by_doing/mbr/fs/fs.c:137-174 | two paths without "." and ".." that lead to the same inode are the same path |
| Trees.ExactlyOnePath | src/learn_by_doing/mbr/fs/fs.c:176-243 | every live inode is reached by a path without "." and "..", and by only one |
| TreeSteps.TreeAfterFormat | src/learn_by_doing/mbr/fs/fs.c:112-129 | a formatted partition satisfies the tree invariant |
| TreeSteps.TreeAfterWrite | src/learn_by_doing/mbr/fs/file.c:205-275 | writing a file keeps the tree and every directory's entries |
| TreeSteps.TreeAfterCreate | src/learn_by_doing/mbr/fs/file.c:79-143 | file_create with a new name keeps the tree and adds exactly that name |
| TreeSteps.TreeAfterMake | src/learn_by_doing/mbr/fs/fs.c:495-557 | sys_mkdir with a new name keeps the tree with the new directory in it, which has its dots only, and adds exactly that name |
| TreeSteps.TreeAfterRemove | src/learn_by_doing/mbr/fs/fs.c:443-446 | sys_unlink and sys_rmdir keep the tree, without the inode, and remove exactly its name |
| TreeSteps.NamedProperly | src/learn_by_doing/mbr/fs/dir.c:160-219 | deleting by inode number hits the one entry with the proper name: the number is neither the directory's own nor its parent's |
| Syscalls.SysCreate | src/learn_by_doing/mbr/fs/fs.c:271-326 | sys_open with O_CREAT makes a file if and only if the path leads nowhere without a regular file in its way, a number and a slot of the table of open files are left and the directory where the walk ended has a free slot; then the lowest free inode's entry, under what follows the last slash, is in that directory's first free slot, and the tables of open files have it; otherwise nothing changes; the tree is kept if and only if nothing was made or that name is not empty and was free there, and then exactly that name is added |
| Syscalls.SysMkdir | src/learn_by_doing/mbr/fs/fs.c:495-557 | the same for a directory, which gets its dots; otherwise nothing changes |
| Syscalls.TailIsLast | src/learn_by_doing/mbr/fs/fs.c:291-296 | what follows the last slash is the last component, or empty if and only if the path ends in a slash |
| Syscalls.VacantIfInOrder | src/learn_by_doing/mbr/fs/fs.c:291-296 | a directory that is in order after the entry has come did not have the name, which is not empty |
| Syscalls.NotVacantWithSlash | src/learn_by_doing/mbr/fs/fs.c:291-296 | such paths that are entered wrongly: with no "n" in the root, "/n/" gets an entry with an empty name there |
| Syscalls.NotVacantBelow | src/learn_by_doing/mbr/fs/fs.c:291-296 | and with no "n" but an "m", "/n/m" gets a second "m" in the root |
| Syscalls.SysUnlink | src/learn_by_doing/mbr/fs/fs.c:409-454 | succeeds if and only if the path leads to a regular file that is not open; then exactly its name and its inode are gone; otherwise nothing changes |
| Syscalls.SysRmdir | src/learn_by_doing/mbr/fs/fs.c:605-635 | succeeds if and only if the path leads to a directory that binds nothing but its dots; then exactly its name and its inode are gone; otherwise nothing changes; the assertion that the inode is not the root's holds |
| PathEffects.PathsAfterRemoval | src/learn_by_doing/mbr/fs/fs.c:409-454 | afterwards a path without "." and ".." leads where it did, unless it led to what was removed, and then nowhere |
| PathEffects.FoundWhereAsked | src/learn_by_doing/mbr/fs/fs.c:288-299 | a path that led nowhere leads to the new inode if and only if its last component was the only one missing; otherwise the name was given in the directory where the walk ended |
| PathEffects.PathsAfterCreate | src/learn_by_doing/mbr/fs/fs.c:271-326 | after sys_open made a file, every other path without dots leads where it did, and the one asked for leads to the file if and only if only its last component was missing |
| PathEffects.PathsAfterMkdir | src/learn_by_doing/mbr/fs/fs.c:495-557 | the same after sys_mkdir |

## Left out

- FileWrite: excludes the writes of GuardMisses, where the code indexes past its block table or takes a count that no buffer can have; the two-sector buffer that inode_sync may need is taken as given.
- FileRead: excludes requests whose end wraps into the sector where they start, where the code copies past its one-sector buffer.
- SyncDirEntry: requires free blocks for the entry, which the code's assertion checks only while no bit past the partition's end is clear, and the size not to wrap at 32 bits.
- SysUnlink: for paths that do not lead to the root, which the source asserts; the open files are given as the inode numbers in the file table.
- SysRmdir: for paths that do not end in "." or "..", where the code removes an entry of the wrong directory.
- SysCreate: requires free blocks for the entry, and leaves out sys_open of a file that is there and opening without O_CREAT.
- SysMkdir: for a parent with a free slot, because the code gives back neither the block nor the inode on disk when the parent is full.
- SysMalloc: the headers and links that live in the pages are fields of the model; that user data does not overwrite them is the disjointness of blocks, headers and free blocks.
- PageTableAdd: requires a free kernel frame when a page table is needed, because the source does not test palloc's result there.
- MfreePage: not for the page that holds the active page directory.
- SemaDown: a method ends at the context switch, so the loop of sema_down is one test at a time.
- SysWaitPass: the taking of pid_lock in release_pid, where the waiting process may sleep, is part of one atomic pass.
- SysExitBegin: only for processes with a parent, because the code reads the parent's status without looking whether there is one.
- The free lists of the arenas and the list of all threads are sequences; only the lists of general_tags are linked.
- Reaped: thread_exit reads the pid after unmapping the thread's page; the model reads it first.
- At: sectors outside the disk read as zeros in the model.
- sys_getcwd, sys_stat, sys_chdir and sys_opendir: a search and a field each, or a buffer of 16 bytes for a whole path.
- The list of open inodes and the open counts: inode_open always reads the table, so sharing of in-core inodes is not modelled.
- CopyProcess: requires every recorded user address to be mapped; a malloc_page that has run out of frames leaves some that are not, and fork faults when it reads them. The buffer page and the pages of the child's address bitmap are plain values, and the pools must have the frames that the copied pages and their tables need, as the code panics or goes wrong without them.
- The table of open files holds inode numbers only; closing, seeking, pipes, and failures of sys_malloc inside the file system.
- SearchFile: for paths whose components fit the 16-byte name buffers and, joined, the 512-byte search path, which the code asserts or overruns.
- exec, the shell's other commands, the device drivers, interrupt entry, context switch assembly and the TLB.
- The wrap of holder_repeat_nr after 2^32 nested acquires.
- Freeing of a process's address space in release_prog_resource, and the child's control block and stack in fork.
- Semaphores that are not part of a lock, such as the disk's completion semaphore, beyond sleeping and being woken.
