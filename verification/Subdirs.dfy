/** Making and removing directories: alloc_directory_inode and sys_mkdir of fs/fs.c, dir_remove of fs/dir.c. */
module Subdirs {
  import opened Words
  import opened Bitmaps
  import opened Layout
  import opened InodeTable
  import opened BlockMap
  import opened Volumes
  import opened DirEntries
  import opened Directories
  import opened NewDirs
  import opened Lifecycle

  /** Inode ino is new and a directory with "." and "..", in one sector; no other inode is touched. */
  ghost predicate Born(sb: SuperBlock, a: Img, b: Img, ino: u32, parent: u32)
    requires Shaped(sb, a) && Shaped(sb, b)
  {
    && ino !in a.table && b.table.Keys == a.table.Keys + {ino as nat}
    && b.table[ino].sectors[0] != 0 && b.table[ino] == DirNode(b.table[ino].sectors[0])
    && View(b.disk, b.table[ino], 0) == DirSector(ino, parent)
    && FreeBlocks(sb, b.bits) == FreeBlocks(sb, a.bits) - 1
    && Kept(sb, a, b)
  }

  /** A new directory is in order, and it maps "." to itself and ".." to its parent and nothing else. */
  lemma BornIsDirectory(sb: SuperBlock, a: Img, b: Img, ino: u32, parent: u32)
    requires Shaped(sb, a) && Shaped(sb, b) && Born(sb, a, b, ino, parent)
    ensures DirOk(b.disk, b.table[ino])
    ensures LiveEntries(Slots(b.disk, b.table[ino])) == [DotEntry(ino), DotDotEntry(parent)]
    ensures Bindings(Slots(b.disk, b.table[ino])) == map[[DOT] := DotEntry(ino), [DOT, DOT] := DotDotEntry(parent)]
    ensures Slots(b.disk, b.table[ino])[0] == DotEntry(ino) && Slots(b.disk, b.table[ino])[1] == DotDotEntry(parent)
  {
    hide DotEntry, DotDotEntry, DirSector, Slots, Kept, FreeBlocks, CString;
    var n := b.table[ino];
    assert n.BlockPtr(0) == n.sectors[0];
    ViewAt(b.disk, n, 0);
    NewDirOk(b.disk, n.sectors[0], ino, parent);
    TwoBindings(Slots(b.disk, n), ino, parent);
  }

  lemma TwoBindings(s: seq<DirEntry>, ino: u32, parent: u32)
    requires |s| == SLOTS && NamesOk(s) && LiveEntries(s) == [DotEntry(ino), DotDotEntry(parent)]
    requires s[0] == DotEntry(ino) && s[1] == DotDotEntry(parent)
    ensures Bindings(s) == map[[DOT] := DotEntry(ino), [DOT, DOT] := DotDotEntry(parent)]
  {
    hide DotEntry, DotDotEntry, CString, LiveEntries;
    DotNames(ino, parent);
    OnlyFirstTwo(s);
    BindingAt(s, 0);
    BindingAt(s, 1);
    forall name | name in Bindings(s)
      ensures name == [DOT] || name == [DOT, DOT]
    {
      var i := Find(s, name);
      assert s[i].Live() && s[i].Name() == name;
    }
  }

  // --- alloc_directory_inode ---

  /** bitmap_sync of a number that has been taken, after which the inode counts as live, with nothing in it yet. */
  method StartLife(vol: Volume, ino: nat)
    requires vol.Core() && vol.ledger.pending == {ino} && ino < MAX_FILES_PER_PART
    modifies vol, vol.ledger
    ensures vol.Core() && vol.Settled()
    ensures Shaped(vol.sb, old(vol.State())) && Shaped(vol.sb, vol.State())
    ensures ino !in old(vol.table) && vol.table == old(vol.table)[ino := EmptyNode()]
    ensures vol.State().bits == old(vol.State()).bits
    ensures Kept(vol.sb, old(vol.State()), vol.State())
  {
    hide Owned, BitsOf, Untouched, View, OnDisk, FreeBlocks, Record, EmptyNode;
    ghost var a := vol.State();
    vol.CoreShaped();
    InodeBitmapSync(vol, ino);
    ghost var b := vol.State();
    vol.CoreShaped();
    BirthOwned(vol.sb, b, ino);
    vol.ledger.pending := {};
    vol.table := vol.table[ino := EmptyNode()];
    OwnedShaped(vol.sb, vol.State());
    KeptTwice(vol.sb, a, b, vol.State());
  }

  lemma KeptTwice(sb: SuperBlock, a: Img, b: Img, c: Img)
    requires Shaped(sb, a) && Shaped(sb, b) && Shaped(sb, c) && Kept(sb, a, b) && Kept(sb, b, c)
    ensures Kept(sb, a, c)
  {
    forall j | j in a.table
      ensures Untouched(sb, a, c, j)
    {
      assert Untouched(sb, a, b, j) && Untouched(sb, b, c, j);
    }
  }

  /** The sector that alloc_directory_inode takes for the new directory. */
  method TakeSector(vol: Volume, inode: Inode) returns (blockLba: u32)
    requires Unsynced(vol, inode) && vol.table[inode.iNo] == EmptyNode()
    requires FreeBlocks(vol.sb, vol.blockBitmap.All()) > 0
    modifies vol, vol.blockBitmap.bits, inode
    ensures Unsynced(vol, inode) && inode.iNo == old(inode.iNo) && blockLba != 0
    ensures vol.table[inode.iNo] == EmptyNode().WithPtr(0, blockLba)
    ensures Shaped(vol.sb, old(vol.State())) && Shaped(vol.sb, vol.State())
    ensures OthersUntouched(vol.sb, old(vol.State()), vol.State(), inode.iNo)
    ensures FreeBlocks(vol.sb, vol.State().bits) == FreeBlocks(vol.sb, old(vol.State()).bits) - 1
  {
    hide Owned, BitsOf, FreeBlocks, Untouched, View, TableLoaded, Record, OnDisk, EmptyNode;
    ghost var a, ino := vol.State(), inode.iNo;
    vol.CoreShaped();
    EmptyPointers();
    blockLba := vol.AllocateFor(ino, 0);
    OwnedShaped(vol.sb, vol.State());
    inode.iSectors := inode.iSectors[0 := blockLba];
    OthersStayOnDisk(vol.sb, a, vol.State(), ino);
    assert inode.Shows(vol.table[ino]);
  }

  /** alloc_directory_inode */
  method AllocDirectoryInode(vol: Volume, parentInodeNo: u32) returns (r: int)
    requires vol.Valid() && FreeBlocks(vol.sb, vol.blockBitmap.All()) > 0
    modifies vol, vol.blockBitmap.bits, vol.inodeBitmap.bits, vol.ledger
    ensures vol.Valid() && Shaped(vol.sb, old(vol.State())) && Shaped(vol.sb, vol.State())
    ensures r == -1 ==> vol.State() == old(vol.State()) && forall j :: 0 <= j < MAX_FILES_PER_PART ==> j in vol.table
    ensures r != -1 ==> 0 <= r < MAX_FILES_PER_PART && forall j :: 0 <= j < r ==> j in old(vol.table)
    ensures r != -1 ==> Born(vol.sb, old(vol.State()), vol.State(), r, parentInodeNo)
  {
    hide Owned, BitsOf, FreeBlocks, Untouched, View, TableLoaded, Record, OnDisk, EmptyNode, DirSector, Born, Kept;
    hide Volume.Core;
    ghost var a := vol.State();
    vol.CoreShaped();
    var inodeNo := InodeBitmapAlloc(vol);
    if inodeNo == -1 {
      return -1;
    }
    StartLife(vol, inodeNo);
    ghost var b := vol.State();
    var dirInode := new Inode(InodeRec(inodeNo, 0, seq(13, _ => 0)));
    dirInode.iOpenCnt := 0;
    ShowsEmpty(dirInode);
    StartsUnsynced(vol, a, dirInode);
    var blockLba := TakeSector(vol, dirInode);
    ghost var c := vol.State();
    Furnish(vol, dirInode, blockLba, parentInodeNo);
    BornInSteps(vol.sb, a, b, c, vol.State(), inodeNo, parentInodeNo, blockLba);
    r := inodeNo;
  }

  /** The last lines of alloc_directory_inode: the new sector is written, the inode gets its size, and is written too. */
  method Furnish(vol: Volume, dirInode: Inode, blockLba: u32, parentInodeNo: u32)
    requires Unsynced(vol, dirInode) && vol.Settled() && blockLba != 0
    requires vol.table[dirInode.iNo] == EmptyNode().WithPtr(0, blockLba)
    modifies vol, dirInode
    ensures vol.Valid() && Shaped(vol.sb, old(vol.State())) && Shaped(vol.sb, vol.State())
    ensures OthersUntouched(vol.sb, old(vol.State()), vol.State(), old(dirInode.iNo))
    ensures vol.State().bits == old(vol.State()).bits && old(dirInode.iNo) in vol.table
    ensures vol.table[old(dirInode.iNo)] == DirNode(blockLba) && DirNode(blockLba).sectors[0] == blockLba
    ensures View(vol.disk, vol.table[old(dirInode.iNo)], 0) == DirSector(old(dirInode.iNo), parentInodeNo)
  {
    hide Owned, BitsOf, FreeBlocks, Untouched, View, TableLoaded, Record, OnDisk, EmptyNode, DirSector;
    hide Volume.Core;
    ghost var c, ino := vol.State(), dirInode.iNo;
    NodeIs(blockLba);
    WriteDirSector(vol, dirInode, 0, blockLba, DirSector(dirInode.iNo, parentInodeNo));
    ghost var d := vol.State();
    Resize(vol, dirInode, 2 * DIR_ENTRY_SIZE);
    ghost var e := vol.State();
    SyncDir(vol, dirInode);
    OthersUntouchedTransitive(vol.sb, c, d, e, ino);
    OthersUntouchedTransitive(vol.sb, c, e, vol.State(), ino);
  }

  lemma StartsUnsynced(vol: Volume, a: Img, inode: Inode)
    requires vol.Core() && inode.iNo in vol.table && vol.table[inode.iNo] == EmptyNode() && inode.Shows(EmptyNode())
    requires Shaped(vol.sb, a) && Shaped(vol.sb, vol.State()) && Kept(vol.sb, a, vol.State())
    requires vol.table.Keys == a.table.Keys + {inode.iNo as nat}
    requires forall j :: j in a.table ==> OnDisk(vol.sb, a.disk, j, a.table[j])
    ensures Unsynced(vol, inode)
  {
    hide Owned, BitsOf, View, OnDisk;
    EmptyLoaded(vol.disk);
    forall j | j in vol.table && j != inode.iNo
      ensures OnDisk(vol.sb, vol.disk, j, vol.table[j])
    {
      assert Untouched(vol.sb, a, vol.State(), j);
    }
  }

  lemma NodeIs(lba: u32)
    ensures EmptyNode().WithPtr(0, lba).(size := 2 * DIR_ENTRY_SIZE) == DirNode(lba)
    ensures DirNode(lba).sectors[0] == lba && PosOf(0) == 0 && EmptyNode().WithPtr(0, lba).BlockPtr(0) == lba
  {
    assert EmptyNode().WithPtr(0, lba).sectors == DirNode(lba).sectors;
  }

  lemma BornInSteps(sb: SuperBlock, a: Img, b: Img, c: Img, f: Img, ino: u32, parent: u32, lba: u32)
    requires Shaped(sb, a) && Shaped(sb, b) && Shaped(sb, c) && Shaped(sb, f)
    requires ino !in a.table && b.table == a.table[ino as nat := EmptyNode()] && b.bits == a.bits && Kept(sb, a, b)
    requires OthersUntouched(sb, b, c, ino) && OthersUntouched(sb, c, f, ino)
    requires FreeBlocks(sb, c.bits) == FreeBlocks(sb, b.bits) - 1 && f.bits == c.bits
    requires lba != 0 && f.table[ino] == DirNode(lba) && DirNode(lba).sectors[0] == lba
    requires View(f.disk, f.table[ino], 0) == DirSector(ino, parent)
    ensures Born(sb, a, f, ino, parent)
  {
    hide View, FreeBlocks, DirSector, DirNode, Untouched, EmptyNode;
    OthersUntouchedTransitive(sb, b, c, f, ino);
    ThenKept(sb, a, b, f, ino);
  }

  lemma ThenKept(sb: SuperBlock, a: Img, b: Img, f: Img, ino: nat)
    requires Shaped(sb, a) && Shaped(sb, b) && Shaped(sb, f)
    requires ino !in a.table && b.table.Keys == a.table.Keys + {ino} && Kept(sb, a, b) && OthersUntouched(sb, b, f, ino)
    ensures Kept(sb, a, f)
  {
    hide View, OnDisk;
    forall j | j in a.table
      ensures Untouched(sb, a, f, j)
    {
      assert Untouched(sb, a, b, j) && Untouched(sb, b, f, j);
    }
  }

  // --- sys_mkdir ---

  /** Free sectors for the new directory's own block and for its entry in the parent */
  ghost predicate RoomForDirectory(sb: SuperBlock, img: Img, dir: nat)
    requires Shaped(sb, img) && dir in img.table
  {
    && FreeBlocks(sb, img.bits) > 0
    && forall i :: 0 <= i < SLOTS && FirstFree(Slots(img.disk, img.table[dir]), i) ==>
         SlotCost(img.table[dir], i) + 1 <= FreeBlocks(sb, img.bits)
  }

  /** Slot i of directory dir has been filled with e; no other inode is touched. */
  ghost predicate Entered(sb: SuperBlock, a: Img, b: Img, dir: nat, i: nat, e: DirEntry)
    requires Shaped(sb, a) && Shaped(sb, b) && dir in a.table && i < SLOTS
  {
    OthersUntouched(sb, a, b, dir) && Grew(sb, a, b, dir, i, e)
  }

  lemma EnteredInSteps(sb: SuperBlock, a: Img, b: Img, c: Img, dir: nat, i: nat, e: DirEntry)
    requires Shaped(sb, a) && Shaped(sb, b) && Shaped(sb, c) && dir in a.table && i < SLOTS
    requires Added(sb, a, b, dir, i, e) && OthersUntouched(sb, b, c, dir) && c.table == b.table && c.bits == b.bits
    requires forall k :: 0 <= k < BLOCKS ==> View(c.disk, c.table[dir], k) == View(b.disk, b.table[dir], k)
    ensures Entered(sb, a, c, dir, i, e)
  {
    hide View, FreeBlocks, SlotCost, Untouched;
    OthersUntouchedTransitive(sb, a, b, c, dir);
    SlotsSame(b.disk, b.table[dir], c.disk, c.table[dir]);
  }

  lemma RoomHas(sb: SuperBlock, img: Img, dir: nat)
    requires Shaped(sb, img) && dir in img.table && RoomForDirectory(sb, img, dir)
    ensures FreeBlocks(sb, img.bits) > 0
  {
  }

  lemma ParentAfterBirth(sb: SuperBlock, a: Img, b: Img, dir: nat, ino: u32, parent: u32)
    requires Shaped(sb, a) && Shaped(sb, b) && Born(sb, a, b, ino, parent) && dir in a.table
    requires RoomForDirectory(sb, a, dir)
    ensures dir in b.table && b.table[dir] == a.table[dir] && RoomForEntry(sb, b, dir)
    ensures Slots(b.disk, b.table[dir]) == Slots(a.disk, a.table[dir])
  {
    hide View, FreeBlocks, SlotCost, Slots, FirstFree, DirSector, DirNode;
    assert Untouched(sb, a, b, dir);
    SlotsSame(a.disk, a.table[dir], b.disk, b.table[dir]);
  }

  /** A new directory ino has been made, giving state mid, and entered in the first free slot of directory dir. */
  ghost predicate Made(sb: SuperBlock, a: Img, mid: Img, b: Img, dir: u32, ino: u32, i: nat, dirname: seq<byte>)
    requires Shaped(sb, a) && Shaped(sb, b) && dir in a.table && |dirname| < NAME_LEN
  {
    && i < SLOTS && FirstFree(Slots(a.disk, a.table[dir]), i)
    && Shaped(sb, mid) && Born(sb, a, mid, ino, dir) && dir in mid.table
    && Entered(sb, mid, b, dir, i, CreateDirEntry(dirname, ino, FT_DIRECTORY))
  }

  /** sys_mkdir, once the path has been found missing: a new directory, then its entry in the parent, which has a free
      slot. `mid` is the state between the two. */
  method MakeDirectory(vol: Volume, dir: Inode, dirname: seq<byte>) returns (r: int, ghost slot: nat, ghost mid: Img)
    requires vol.Valid() && dir.iNo in vol.table && dir.Shows(vol.table[dir.iNo])
    requires |dirname| < NAME_LEN && Shaped(vol.sb, vol.State()) && RoomForDirectory(vol.sb, vol.State(), dir.iNo)
    requires dir.iSize + DIR_ENTRY_SIZE < 0x1_0000_0000
    requires !LiveBelow(Slots(vol.disk, vol.table[dir.iNo]), SLOTS)
    modifies vol, vol.blockBitmap.bits, vol.inodeBitmap.bits, vol.ledger, dir
    ensures vol.Valid() && dir.iNo == old(dir.iNo) && dir.iNo in vol.table && dir.Shows(vol.table[dir.iNo])
    ensures Shaped(vol.sb, vol.State())
    ensures r == -1 ==> vol.State() == old(vol.State()) && forall j :: 0 <= j < MAX_FILES_PER_PART ==> j in vol.table
    ensures r != -1 ==> 0 <= r < MAX_FILES_PER_PART && forall j :: 0 <= j < r ==> j in old(vol.table)
    ensures r != -1 ==> Made(vol.sb, old(vol.State()), mid, vol.State(), dir.iNo, r, slot, dirname)
  {
    hide Owned, BitsOf, Untouched, View, OnDisk, FreeBlocks, Record, Added, Born, Entered, RoomForEntry, RoomForDirectory, Slots, Pack;
    hide Volume.Core;
    ghost var a := vol.State();
    slot, mid := 0, a;
    RoomHas(vol.sb, a, dir.iNo);
    var inodeNo := AllocDirectoryInode(vol, dir.iNo);
    if inodeNo == -1 {
      return -1, 0, a;
    }
    mid := vol.State();
    ParentAfterBirth(vol.sb, a, mid, dir.iNo, inodeNo, dir.iNo);
    ValidUnsynced(vol, dir);
    vol.CoreShaped();
    var ok;
    ok, slot := SyncDirEntry(vol, dir, CreateDirEntry(dirname, inodeNo, FT_DIRECTORY));
    assert ok;
    ghost var b := vol.State();
    SyncDir(vol, dir);
    EnteredInSteps(vol.sb, mid, b, vol.State(), dir.iNo, slot, CreateDirEntry(dirname, inodeNo, FT_DIRECTORY));
    r := inodeNo;
  }

  /** sys_mkdir with a new name keeps the parent in order and adds exactly that binding; the new directory is in order and
      binds "." to itself and ".." to the parent. */
  lemma MakeDirectoryMeans(sb: SuperBlock, a: Img, mid: Img, b: Img, dir: u32, ino: u32, i: nat, dirname: seq<byte>)
    requires Shaped(sb, a) && Shaped(sb, mid) && Shaped(sb, b) && dir in a.table && i < SLOTS
    requires DirOk(a.disk, a.table[dir]) && OnDisk(sb, a.disk, dir, a.table[dir])
    requires 0 < |dirname| < NAME_LEN && forall k :: 0 <= k < |dirname| ==> dirname[k] != 0
    requires dirname !in Names(Slots(a.disk, a.table[dir])) && Made(sb, a, mid, b, dir, ino, i, dirname)
    ensures dir in b.table && DirOk(b.disk, b.table[dir])
    ensures Bindings(Slots(b.disk, b.table[dir])) ==
            Bindings(Slots(a.disk, a.table[dir]))[dirname := CreateDirEntry(dirname, ino, FT_DIRECTORY)]
    ensures ino in b.table && DirOk(b.disk, b.table[ino])
    ensures Bindings(Slots(b.disk, b.table[ino])) == map[[DOT] := DotEntry(ino), [DOT, DOT] := DotDotEntry(dir)]
  {
    hide View, FreeBlocks, Slots, OnDisk, DirOk, Grew, DirSector, DirNode, Untouched, Bindings, Names, CString;
    var e := CreateDirEntry(dirname, ino, FT_DIRECTORY);
    SameParent(sb, a, mid, ino, dir);
    SameDirOk(sb, a, mid, dir);
    CStringPadded(dirname, NAME_LEN - |dirname|);
    DirOkAfterAdd(sb, mid, b, dir, i, e);
    BornIsDirectory(sb, a, mid, ino, dir);
    StillDirectory(sb, mid, b, ino);
  }

  lemma StillDirectory(sb: SuperBlock, a: Img, b: Img, ino: nat)
    requires Shaped(sb, a) && Shaped(sb, b) && ino in a.table && Untouched(sb, a, b, ino) && DirOk(a.disk, a.table[ino])
    ensures ino in b.table && b.table[ino].Ok() && DirOk(b.disk, b.table[ino])
    ensures Slots(b.disk, b.table[ino]) == Slots(a.disk, a.table[ino])
  {
    hide View, Slots, NamesOk, LiveEntries;
    SlotsSame(a.disk, a.table[ino], b.disk, b.table[ino]);
  }

  // --- sys_rmdir ---

  /** sys_rmdir and dir_remove for a directory that has been found: removed if it holds nothing but "." and "..", with the
      ASSERT that it then has no block but its first. */
  method RemoveDirectory(vol: Volume, parentDir: Inode, childDir: Inode) returns (r: int, ghost slot: nat)
    requires vol.Valid() && parentDir.iNo in vol.table && parentDir.Shows(vol.table[parentDir.iNo])
    requires childDir.iNo in vol.table && childDir.Shows(vol.table[childDir.iNo])
    requires DirOk(vol.disk, vol.table[parentDir.iNo]) && DirOk(vol.disk, vol.table[childDir.iNo])
    requires Slots(vol.disk, vol.table[childDir.iNo])[0].Live() && Slots(vol.disk, vol.table[childDir.iNo])[1].Live()
    requires NamedOnce(Slots(vol.disk, vol.table[parentDir.iNo]), childDir.iNo)
    requires exists i :: 0 <= i < SLOTS && NamesInode(Slots(vol.disk, vol.table[parentDir.iNo]), i, childDir.iNo)
    requires Slots(vol.disk, vol.table[parentDir.iNo])[0].Live()
    requires !NamesInode(Slots(vol.disk, vol.table[parentDir.iNo]), 0, childDir.iNo)
    requires childDir.iNo != parentDir.iNo && childDir.iNo != 0 && childDir != parentDir
    requires 0 in vol.table && vol.table[0].Ok() && vol.table[0].sectors[0] == vol.sb.dataStartLba
    modifies vol, vol.blockBitmap.bits, vol.inodeBitmap.bits, vol.ledger, parentDir
    ensures vol.Valid() && parentDir.iNo == old(parentDir.iNo) && parentDir.iNo in vol.table
    ensures parentDir.Shows(vol.table[parentDir.iNo])
    ensures Shaped(vol.sb, old(vol.State())) && Shaped(vol.sb, vol.State())
    ensures r == 0 <==> forall i :: 2 <= i < SLOTS ==> !Slots(old(vol.disk), old(vol.table[childDir.iNo]))[i].Live()
    ensures r != 0 ==> r == -1 && vol.State() == old(vol.State())
    ensures r == 0 ==> slot < SLOTS && NamesInode(Slots(old(vol.disk), old(vol.table[parentDir.iNo])), slot, childDir.iNo)
    ensures r == 0 ==> Removed(vol.sb, old(vol.State()), vol.State(), parentDir.iNo, childDir.iNo, slot)
  {
    hide Owned, BitsOf, Untouched, View, OnDisk, FreeBlocks, Slots, Removed, DirOk, NamedOnce, NamesInode, TableLoaded;
    hide Volume.Core;
    slot := 0;
    vol.CoreShaped();
    var empty := DirIsEmpty(vol, childDir);
    if !empty {
      return -1, 0;
    }
    for blockIdx := 1 to 13
    {
      assert childDir.iSectors[blockIdx] == 0;
    }
    slot := Unlink(vol, parentDir, childDir.iNo);
    r := 0;
  }

  /** Making a directory and removing it brings back every inode's state, the parent's entries and the block bitmap. */
  lemma MakeThenRemove(sb: SuperBlock, a: Img, mid: Img, b: Img, c: Img, dir: u32, ino: u32, i: nat, j: nat, dirname: seq<byte>)
    requires Owned(sb, a) && Shaped(sb, mid) && Shaped(sb, b) && Owned(sb, c) && dir in a.table && i < SLOTS && j < SLOTS
    requires DirOk(a.disk, a.table[dir]) && OnDisk(sb, a.disk, dir, a.table[dir])
    requires |dirname| < NAME_LEN && ino != dir && Shaped(sb, a) && Made(sb, a, mid, b, dir, ino, i, dirname)
    requires forall k :: 0 <= k < SLOTS ==> !NamesInode(Slots(a.disk, a.table[dir]), k, ino)
    requires dir in b.table && NamesInode(Slots(b.disk, b.table[dir]), j, ino) && Removed(sb, b, c, dir, ino, j)
    ensures c.table == a.table && c.bits == a.bits
    ensures Slots(c.disk, c.table[dir]) == Slots(a.disk, a.table[dir])
    ensures forall k :: k in a.table && k != dir ==> Untouched(sb, a, c, k)
  {
    hide Owned, View, FreeBlocks, Slots, OnDisk, DirOk, Grew, Shrank, DirSector, DirNode, Untouched;
    var e := CreateDirEntry(dirname, ino, FT_DIRECTORY);
    OwnedShaped(sb, c);
    SameParent(sb, a, mid, ino, dir);
    GrewSlots(sb, mid, b, dir, i, e);
    assert !NamesInode(Slots(a.disk, a.table[dir]), j, ino);
    assert j == i;
    SameDirOk(sb, a, mid, dir);
    AddThenDelete(sb, mid, b, c, dir, i, e);
    forall k | k in a.table && k != dir
      ensures Untouched(sb, a, c, k) && c.table[k] == a.table[k]
    {
      assert Untouched(sb, a, mid, k) && Untouched(sb, mid, b, k) && Untouched(sb, b, c, k);
      UntouchedThrice(sb, a, mid, b, c, k);
    }
    assert c.table.Keys == a.table.Keys;
    SamePointersSameBits(sb, a, c);
  }

  lemma SameParent(sb: SuperBlock, a: Img, b: Img, ino: u32, dir: u32)
    requires Shaped(sb, a) && Shaped(sb, b) && Born(sb, a, b, ino, dir) && dir in a.table
    ensures dir in b.table && b.table[dir] == a.table[dir]
    ensures Slots(b.disk, b.table[dir]) == Slots(a.disk, a.table[dir])
    ensures forall k :: 0 <= k < BLOCKS ==> View(b.disk, b.table[dir], k) == View(a.disk, a.table[dir], k)
  {
    hide View, FreeBlocks, Slots, DirSector, DirNode;
    assert Untouched(sb, a, b, dir);
    SlotsSame(a.disk, a.table[dir], b.disk, b.table[dir]);
  }

  lemma UntouchedThrice(sb: SuperBlock, a: Img, b: Img, c: Img, d: Img, k: nat)
    requires Shaped(sb, a) && Shaped(sb, b) && Shaped(sb, c) && Shaped(sb, d)
    requires k in a.table && Untouched(sb, a, b, k) && k in b.table && Untouched(sb, b, c, k) && k in c.table && Untouched(sb, c, d, k)
    ensures Untouched(sb, a, d, k) && d.table[k] == a.table[k]
  {
    hide View, OnDisk;
  }

  lemma SameDirOk(sb: SuperBlock, a: Img, b: Img, dir: nat)
    requires Shaped(sb, a) && Shaped(sb, b) && dir in a.table && Untouched(sb, a, b, dir)
    requires DirOk(a.disk, a.table[dir]) && OnDisk(sb, a.disk, dir, a.table[dir])
    ensures DirOk(b.disk, b.table[dir]) && TableLoaded(b.disk, b.table[dir])
  {
    hide View, Slots, NamesOk, LiveEntries;
    SlotsSame(a.disk, a.table[dir], b.disk, b.table[dir]);
  }
}
