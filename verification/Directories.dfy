/** fs/dir.c: looking up, adding and removing directory entries. */
module Directories {
  import opened Words
  import opened Bitmaps
  import opened Layout
  import opened InodeTable
  import opened BlockMap
  import opened Volumes
  import opened FileIo
  import opened DirEntries

  ghost predicate BlockInUse(s: seq<DirEntry>, b: nat)
    requires |s| == SLOTS && b < BLOCKS
  {
    exists i :: b * PER_SECTOR <= i < b * PER_SECTOR + PER_SECTOR && s[i].Live()
  }

  /** What holds of every directory: its size counts its live entries, free slots are all zeros, names are distinct, and
      sectors are held only for blocks with a live entry and for an indirect table that is in use. */
  ghost predicate DirOk(disk: seq<Sector>, n: Node)
    requires n.Ok()
  {
    var s := Slots(disk, n);
    && n.size == DIR_ENTRY_SIZE * |LiveEntries(s)|
    && NamesOk(s)
    && (forall i :: 0 <= i < SLOTS && !s[i].Live() ==> s[i] == ZeroEntry())
    && (forall b :: 0 <= b < BLOCKS && n.BlockPtr(b) != 0 ==> BlockInUse(s, b))
    && (n.sectors[12] != 0 ==> exists q :: 0 <= q < ENTRIES && n.entries[q] != 0)
  }

  /** The state between an operation that changes a directory in memory and the inode_sync that its caller does next:
      everything is on disk except the directory's own record. */
  ghost predicate Unsynced(vol: Volume, dir: Inode)
    reads vol, vol.blockBitmap.bits, vol.inodeBitmap.bits, vol.ledger, dir
  {
    && vol.Core()
    && dir.iNo in vol.table
    && dir.Shows(vol.table[dir.iNo])
    && TableLoaded(vol.disk, vol.table[dir.iNo])
    && forall j :: j in vol.table && j != dir.iNo ==> OnDisk(vol.sb, vol.disk, j, vol.table[j])
  }

  // --- Allocation ---

  /** A sector has been taken for pointer pos of inode ino and filled with zeros, so that no block looks different. */
  ghost predicate Extended(sb: SuperBlock, img: Img, img': Img, ino: nat, pos: nat, l: u32)
    requires Shaped(sb, img) && Shaped(sb, img') && ino in img.table && pos < POINTERS
  {
    && OthersUntouched(sb, img, img', ino)
    && img'.table == img.table[ino := img.table[ino].WithPtr(pos, l)]
    && sb.dataStartLba <= l < |img'.disk|
    && At(img'.disk, l) == Zeros()
    && (forall b :: 0 <= b < BLOCKS ==> View(img'.disk, img'.table[ino], b) == View(img.disk, img.table[ino], b))
    && (pos <= 12 && TableLoaded(img.disk, img.table[ino]) ==> TableLoaded(img'.disk, img'.table[ino]))
    && FreeBlocks(sb, img'.bits) == FreeBlocks(sb, img.bits) - 1
  }

  lemma ZerosPacked()
    ensures Pack(seq(ENTRIES, _ => 0)) == Zeros()
  {
  }

  lemma ExtendedInSteps(sb: SuperBlock, a: Img, b: Img, c: Img, ino: nat, pos: nat, l: u32)
    requires Owned(sb, a) && Owned(sb, b) && ino in a.table && pos < POINTERS && a.table[ino].Ptr(pos) == 0
    requires Granted(sb, a, b, ino, pos, l) && FreeBlocks(sb, b.bits) == FreeBlocks(sb, a.bits) - 1
    requires l < |b.disk| && c == b.(disk := b.disk[l := Zeros()])
    requires Shaped(sb, a) && Shaped(sb, c)
    ensures Extended(sb, a, c, ino, pos, l)
  {
    hide Owned, Untouched, FreeBlocks, View, Record;
    OwnedShaped(sb, b);
    var n, n' := a.table[ino], b.table[ino];
    assert n'.Ptr(pos) == l;
    WriteOwned(sb, b, ino, pos, Zeros());
    OthersUntouchedTransitive(sb, a, b, c, ino);
    ExtendedViews(a.disk, n, b.disk, n', c.disk, pos, l);
    if pos == 12 {
      assert n.Ptr(12) == n.sectors[12] && n'.entries == n.entries;
      ZerosPacked();
    }
  }

  lemma ExtendedViews(d0: seq<Sector>, n: Node, d1: seq<Sector>, n': Node, d2: seq<Sector>, pos: nat, l: u32)
    requires n.Ok() && n'.Ok() && pos < POINTERS && n.Ptr(pos) == 0 && n'.Ptr(pos) == l
    requires forall b :: 0 <= b < BLOCKS && PosOf(b) != pos ==> View(d1, n', b) == View(d0, n, b)
    requires forall b | 0 <= b < BLOCKS :: View(d2, n', b) == if PosOf(b) == pos then Zeros() else View(d1, n', b)
    ensures forall b :: 0 <= b < BLOCKS ==> View(d2, n', b) == View(d0, n, b)
  {
    forall b | 0 <= b < BLOCKS
      ensures View(d2, n', b) == View(d0, n, b)
    {
      if PosOf(b) == pos {
        assert n.BlockPtr(b) == 0;
      }
    }
  }

  /** allocate_part_block */
  method AllocatePartBlock(vol: Volume, ghost ino: nat, ghost pos: nat) returns (lba: u32)
    requires vol.Core() && ino in vol.table && pos < POINTERS && vol.table[ino].Ptr(pos) == 0
    requires FreeBlocks(vol.sb, vol.blockBitmap.All()) > 0
    modifies vol, vol.blockBitmap.bits
    ensures vol.Core()
    ensures Shaped(vol.sb, old(vol.State())) && Shaped(vol.sb, vol.State())
    ensures Extended(vol.sb, old(vol.State()), vol.State(), ino, pos, lba)
  {
    hide Owned, BitsOf, FreeBlocks, Untouched, View, TableLoaded, Record;
    ghost var a := vol.State();
    vol.CoreShaped();
    lba := vol.AllocateFor(ino, pos);
    ghost var b := vol.State();
    assert b.table[ino].Ptr(pos) == lba;
    vol.CoreShaped();
    PtrOwned(vol.sb, b, ino, pos);
    OwnedOfDisk(vol.sb, b, b.disk[lba := Zeros()]);
    vol.DiskWrite(lba, Zeros());
    assert vol.State() == b.(disk := b.disk[lba := Zeros()]);
    OwnedShaped(vol.sb, vol.State());
    ExtendedInSteps(vol.sb, a, b, vol.State(), ino, pos, lba);
  }

  // --- sync_dir_entry ---

  /** i is the first free slot. */
  ghost predicate FirstFree(s: seq<DirEntry>, i: nat) {
    i < |s| && !s[i].Live() && forall j :: 0 <= j < i ==> s[j].Live()
  }

  /** The sectors that filling slot i takes: one for its block and one for the indirect table, as far as missing. */
  ghost function SlotCost(n: Node, i: nat): nat
    requires n.Ok() && i < SLOTS
  {
    (if n.BlockPtr(i / PER_SECTOR) == 0 then 1 else 0) +
    (if i / PER_SECTOR >= 12 && n.sectors[12] == 0 then 1 else 0)
  }

  /** Block b of the directory has a sector now, and so has the indirect table if it takes one; no block looks different. */
  ghost predicate Prepared(sb: SuperBlock, img: Img, img': Img, ino: nat, b: nat)
    requires Shaped(sb, img) && Shaped(sb, img') && ino in img.table && b < BLOCKS
  {
    && OthersUntouched(sb, img, img', ino)
    && var n, n' := img.table[ino], img'.table[ino];
       && n'.size == n.size
       && n'.BlockPtr(b) != 0
       && (forall c :: 0 <= c < BLOCKS && c != b ==> n'.BlockPtr(c) == n.BlockPtr(c))
       && (n.BlockPtr(b) != 0 ==> n'.BlockPtr(b) == n.BlockPtr(b))
       && (if b < 12 then n'.sectors[12] == n.sectors[12] else n'.sectors[12] != 0)
       && (n.sectors[12] != 0 ==> n'.sectors[12] == n.sectors[12])
       && (forall c :: 0 <= c < BLOCKS ==> View(img'.disk, n', c) == View(img.disk, n, c))
       && FreeBlocks(sb, img'.bits) == FreeBlocks(sb, img.bits) - SlotCost(n, b * PER_SECTOR)
  }

  /** Slot i of directory ino has been filled with entry e. */
  ghost predicate Grew(sb: SuperBlock, img: Img, img': Img, ino: nat, i: nat, e: DirEntry)
    requires Shaped(sb, img) && Shaped(sb, img') && ino in img.table && i < SLOTS
  {
    && ino in img'.table
    && var n, n' := img.table[ino], img'.table[ino];
       && n'.size == n.size + DIR_ENTRY_SIZE
       && Slots(img'.disk, n') == Slots(img.disk, n)[i := e]
       && n'.BlockPtr(i / PER_SECTOR) != 0
       && (forall c :: 0 <= c < BLOCKS && c != i / PER_SECTOR ==> n'.BlockPtr(c) == n.BlockPtr(c))
       && (n.BlockPtr(i / PER_SECTOR) != 0 ==> n'.BlockPtr(i / PER_SECTOR) == n.BlockPtr(i / PER_SECTOR))
       && (if i / PER_SECTOR < 12 then n'.sectors[12] == n.sectors[12] else n'.sectors[12] != 0)
       && (n.sectors[12] != 0 ==> n'.sectors[12] == n.sectors[12])
       && FreeBlocks(sb, img'.bits) == FreeBlocks(sb, img.bits) - SlotCost(n, i)
  }

  /** That, and nothing has happened to any other inode. */
  ghost predicate Added(sb: SuperBlock, img: Img, img': Img, ino: nat, i: nat, e: DirEntry)
    requires Shaped(sb, img) && Shaped(sb, img') && ino in img.table && i < SLOTS
  {
    OthersUntouched(sb, img, img', ino) && Grew(sb, img, img', ino, i, e)
  }

  lemma AddedInSteps(sb: SuperBlock, a: Img, b: Img, c: Img, ino: nat, blk: nat, k: nat, e: DirEntry)
    requires Shaped(sb, a) && Shaped(sb, b) && Shaped(sb, c) && ino in a.table && blk < BLOCKS && k < PER_SECTOR
    requires Prepared(sb, a, b, ino, blk)
    requires OthersUntouched(sb, b, c, ino) && c.bits == b.bits
    requires b.table[ino].size + DIR_ENTRY_SIZE < 0x1_0000_0000
    requires c.table[ino] == b.table[ino].(size := b.table[ino].size + DIR_ENTRY_SIZE)
    requires blk * PER_SECTOR + k < SLOTS
    requires Slots(c.disk, c.table[ino]) == Slots(b.disk, b.table[ino])[blk * PER_SECTOR + k := e]
    ensures Added(sb, a, c, ino, blk * PER_SECTOR + k, e)
  {
    hide Untouched, FreeBlocks, EntryAt, Slots;
    OthersUntouchedTransitive(sb, a, b, c, ino);
    SlotsSame(a.disk, a.table[ino], b.disk, b.table[ino]);
    assert (blk * PER_SECTOR + k) / PER_SECTOR == blk == blk * PER_SECTOR / PER_SECTOR;
    assert forall p :: 0 <= p < BLOCKS ==> c.table[ino].BlockPtr(p) == b.table[ino].BlockPtr(p);
  }

  /** find_free_dir_entry */
  method FindFreeDirEntry(vol: Volume, lba: nat) returns (r: int)
    ensures r == -1 ==> forall k :: 0 <= k < PER_SECTOR ==> EntryAt(At(vol.disk, lba), k).Live()
    ensures r != -1 ==> 0 <= r < PER_SECTOR && !EntryAt(At(vol.disk, lba), r).Live()
    ensures r != -1 ==> forall k :: 0 <= k < r ==> EntryAt(At(vol.disk, lba), k).Live()
  {
    hide EntryAt;
    var ioBuf := At(vol.disk, lba);
    for k := 0 to PER_SECTOR
      invariant forall j :: 0 <= j < k ==> EntryAt(ioBuf, j).Live()
    {
      if EntryAt(ioBuf, k).fType == FT_UNKNOWN {
        return k;
      }
    }
    return -1;
  }

  /** disk_write of a sector of entries that the directory owns */
  method WriteDirSector(vol: Volume, dir: Inode, ghost b: nat, lba: u32, s: Sector)
    requires Unsynced(vol, dir)
    requires b < BLOCKS && lba == vol.table[dir.iNo].BlockPtr(b) != 0
    modifies vol`disk
    ensures Unsynced(vol, dir)
    ensures Shaped(vol.sb, old(vol.State())) && Shaped(vol.sb, vol.State())
    ensures OthersUntouched(vol.sb, old(vol.State()), vol.State(), dir.iNo)
    ensures forall c | 0 <= c < BLOCKS :: View(vol.disk, vol.table[dir.iNo], c) ==
              if c == b then s else View(old(vol.disk), vol.table[dir.iNo], c)
  {
    hide Owned, BitsOf, Untouched, View, TableLoaded, Record, OnDisk;
    ghost var a, ino := vol.State(), dir.iNo;
    vol.CoreShaped();
    PtrOwned(vol.sb, a, ino, PosOf(b));
    WriteOwned(vol.sb, a, ino, PosOf(b), s);
    vol.DiskWrite(lba, s);
    assert vol.State() == a.(disk := a.disk[a.table[ino].Ptr(PosOf(b)) := s]);
    OthersStayOnDisk(vol.sb, a, vol.State(), ino);
  }

  /** `inode->i_size += dir_entry_size`, or `-=` */
  method Resize(vol: Volume, dir: Inode, size: u32)
    requires Unsynced(vol, dir)
    modifies vol`table, dir`iSize
    ensures Unsynced(vol, dir)
    ensures Shaped(vol.sb, old(vol.State())) && Shaped(vol.sb, vol.State())
    ensures OthersUntouched(vol.sb, old(vol.State()), vol.State(), dir.iNo)
    ensures vol.table[dir.iNo] == old(vol.table[dir.iNo]).(size := size)
    ensures forall c | 0 <= c < BLOCKS ::
              View(vol.disk, vol.table[dir.iNo], c) == View(vol.disk, old(vol.table[dir.iNo]), c)
  {
    hide Owned, BitsOf, Untouched, View, TableLoaded, Record, OnDisk;
    ghost var a, ino := vol.State(), dir.iNo;
    vol.CoreShaped();
    ResizeOwned(vol.sb, a, ino, size);
    dir.iSize := size;
    vol.table := vol.table[ino := vol.table[ino].(size := size)];
    OwnedShaped(vol.sb, vol.State());
    OthersStayOnDisk(vol.sb, a, vol.State(), ino);
  }

  /** do_sync_dir_entry: the entry is copied into its block and the directory grows by one. */
  method FillSlot(vol: Volume, dir: Inode, ghost b: nat, lba: u32, k: nat, e: DirEntry)
    requires Unsynced(vol, dir) && e.Ok()
    requires b < BLOCKS && k < PER_SECTOR && lba == vol.table[dir.iNo].BlockPtr(b) != 0
    requires dir.iSize + DIR_ENTRY_SIZE < 0x1_0000_0000
    modifies vol, dir`iSize
    ensures Unsynced(vol, dir)
    ensures Shaped(vol.sb, old(vol.State())) && Shaped(vol.sb, vol.State())
    ensures OthersUntouched(vol.sb, old(vol.State()), vol.State(), dir.iNo)
    ensures vol.State().bits == old(vol.State().bits)
    ensures vol.table[dir.iNo] == old(vol.table[dir.iNo]).(size := old(dir.iSize) + DIR_ENTRY_SIZE)
    ensures b * PER_SECTOR + k < SLOTS
    ensures Slots(vol.disk, vol.table[dir.iNo]) ==
            Slots(old(vol.disk), old(vol.table[dir.iNo]))[b * PER_SECTOR + k := e]
  {
    hide Owned, BitsOf, Untouched, View, TableLoaded, OnDisk, Slots, EntryAt, PutEntry;
    hide Volume.Core;
    ghost var a, ino := vol.State(), dir.iNo;
    ViewAt(a.disk, a.table[ino], b);
    WriteDirSector(vol, dir, b, lba, PutEntry(At(vol.disk, lba), k, e));
    ghost var mid := vol.State();
    SlotsAfterPut(a.disk, a.table[ino], mid.disk, mid.table[ino], b, k, e);
    Resize(vol, dir, dir.iSize + DIR_ENTRY_SIZE);
    SlotsSame(mid.disk, mid.table[ino], vol.disk, vol.table[ino]);
    OthersUntouchedTransitive(vol.sb, a, mid, vol.State(), ino);
  }

  /** A sector for the pointer at position pos has been added to an otherwise unchanged directory. */
  lemma ExtendedPrepared(sb: SuperBlock, a: Img, b: Img, ino: nat, blk: nat, l: u32)
    requires Shaped(sb, a) && Shaped(sb, b) && ino in a.table && blk < BLOCKS
    requires a.table[ino].BlockPtr(blk) == 0 && (blk >= 12 ==> a.table[ino].sectors[12] != 0)
    requires Extended(sb, a, b, ino, PosOf(blk), l)
    ensures Prepared(sb, a, b, ino, blk)
  {
    hide Untouched, FreeBlocks, View;
    var n, n' := a.table[ino], b.table[ino];
    assert n'.Ptr(PosOf(blk)) == l;
    assert n'.Ptr(12) == n.Ptr(12);
    forall c | 0 <= c < BLOCKS && c != blk
      ensures n'.BlockPtr(c) == n.BlockPtr(c)
    {
      assert PosOf(c) != PosOf(blk);
    }
    assert blk * PER_SECTOR / PER_SECTOR == blk;
  }

  lemma PreparedAlready(sb: SuperBlock, a: Img, ino: nat, blk: nat)
    requires Shaped(sb, a) && ino in a.table && blk < BLOCKS
    requires a.table[ino].BlockPtr(blk) != 0 && (blk >= 12 ==> a.table[ino].sectors[12] != 0)
    ensures Prepared(sb, a, a, ino, blk)
  {
    assert blk * PER_SECTOR / PER_SECTOR == blk;
    OthersUntouchedReflexive(sb, a, ino);
  }

  /** The first lines of an iteration over the direct blocks: block idx gets a sector if it has none. */
  method EnsureDirect(vol: Volume, dir: Inode, idx: nat) returns (lba: u32)
    requires Unsynced(vol, dir) && idx < 12
    requires dir.iSectors[idx] == 0 ==> FreeBlocks(vol.sb, vol.blockBitmap.All()) > 0
    modifies vol, vol.blockBitmap.bits, dir`iSectors
    ensures Unsynced(vol, dir)
    ensures Shaped(vol.sb, old(vol.State())) && Shaped(vol.sb, vol.State())
    ensures old(dir.iSectors[idx]) != 0 ==> vol.State() == old(vol.State())
    ensures Prepared(vol.sb, old(vol.State()), vol.State(), dir.iNo, idx)
    ensures lba == vol.table[dir.iNo].BlockPtr(idx)
  {
    hide Owned, BitsOf, Untouched, View, TableLoaded, Record, OnDisk, FreeBlocks;
    ghost var a, ino := vol.State(), dir.iNo;
    vol.CoreShaped();
    lba := dir.iSectors[idx];
    assert a.table[ino].BlockPtr(idx) == lba;
    if lba == 0 {
      lba := AllocatePartBlock(vol, ino, idx);
      dir.iSectors := dir.iSectors[idx := lba];
      ExtendedPrepared(vol.sb, a, vol.State(), ino, idx, lba);
      OthersStayOnDisk(vol.sb, a, vol.State(), ino);
    } else {
      PreparedAlready(vol.sb, a, ino, idx);
    }
  }

  /** The slots of a block are the entries of its sector. */
  lemma BlockSlots(disk: seq<Sector>, n: Node, b: nat, lba: u32)
    requires n.Ok() && b < BLOCKS && lba == n.BlockPtr(b) != 0
    ensures (b + 1) * PER_SECTOR <= SLOTS
    ensures forall i :: b * PER_SECTOR <= i < (b + 1) * PER_SECTOR ==>
              Slots(disk, n)[i] == EntryAt(At(disk, lba), i - b * PER_SECTOR)
  {
    hide View, EntryAt, Slots;
    ViewAt(disk, n, b);
    forall i | b * PER_SECTOR <= i < (b + 1) * PER_SECTOR
      ensures i < SLOTS && Slots(disk, n)[i] == EntryAt(At(disk, lba), i - b * PER_SECTOR)
    {
      SlotOf(disk, n, b, i - b * PER_SECTOR);
    }
  }

  ghost predicate LiveBelow(s: seq<DirEntry>, hi: nat) {
    hi <= |s| && forall i :: 0 <= i < hi ==> s[i].Live()
  }

  /** One iteration over the direct blocks, or over the indirect ones, once the block is known to have a sector: the entry
      goes into the first free slot of the block if there is one. */
  method TryBlock(vol: Volume, dir: Inode, ghost b: nat, lba: u32, e: DirEntry, ghost img0: Img, ghost s: seq<DirEntry>)
    returns (done: bool, ghost slot: nat)
    requires Unsynced(vol, dir) && e.Ok() && b < BLOCKS
    requires Shaped(vol.sb, img0) && Shaped(vol.sb, vol.State()) && dir.iNo in img0.table
    requires Prepared(vol.sb, img0, vol.State(), dir.iNo, b)
    requires lba == vol.table[dir.iNo].BlockPtr(b) != 0
    requires dir.iSize + DIR_ENTRY_SIZE < 0x1_0000_0000
    requires s == Slots(img0.disk, img0.table[dir.iNo]) && LiveBelow(s, b * PER_SECTOR)
    modifies vol, dir`iSize
    ensures Unsynced(vol, dir) && Shaped(vol.sb, vol.State())
    ensures !done ==> vol.State() == old(vol.State()) && dir.iSize == old(dir.iSize)
    ensures !done ==> LiveBelow(s, (b + 1) * PER_SECTOR)
    ensures done ==> FirstFree(s, slot) && Added(vol.sb, img0, vol.State(), dir.iNo, slot, e)
  {
    hide Owned, BitsOf, Untouched, View, TableLoaded, Record, OnDisk, FreeBlocks, EntryAt, Added;
    ghost var ino, mid := dir.iNo, vol.State();
    SlotsSame(img0.disk, img0.table[ino], mid.disk, mid.table[ino]);
    ViewAt(mid.disk, mid.table[ino], b);
    var k := FindFreeDirEntry(vol, lba);
    BlockSlots(mid.disk, mid.table[ino], b, lba);
    if k == -1 {
      return false, 0;
    }
    slot := b * PER_SECTOR + k;
    assert FirstFree(s, slot);
    FillSlot(vol, dir, b, lba, k, e);
    AddedInSteps(vol.sb, img0, mid, vol.State(), ino, b, k, e);
    done := true;
  }

  /** A block without a sector holds free slots only. */
  lemma MissingBlockFree(disk: seq<Sector>, n: Node, b: nat)
    requires n.Ok() && b < BLOCKS && n.BlockPtr(b) == 0
    ensures b * PER_SECTOR < SLOTS && Slots(disk, n)[b * PER_SECTOR] == ZeroEntry()
  {
    hide View, EntryAt, Slots, Zeros;
    ViewAt(disk, n, b);
    SlotOf(disk, n, b, 0);
    ZeroSlot(0);
  }

  /** The indirect table has a sector now; nothing looks different. */
  ghost predicate TableReady(sb: SuperBlock, img: Img, img': Img, ino: nat)
    requires Shaped(sb, img) && Shaped(sb, img') && ino in img.table
  {
    && OthersUntouched(sb, img, img', ino)
    && var n, n' := img.table[ino], img'.table[ino];
       && n'.size == n.size && n'.entries == n.entries
       && n'.sectors[..12] == n.sectors[..12] && n'.sectors[12] != 0
       && (forall c :: 0 <= c < BLOCKS ==> View(img'.disk, n', c) == View(img.disk, n, c))
       && FreeBlocks(sb, img'.bits) == FreeBlocks(sb, img.bits) - (if n.sectors[12] == 0 then 1 else 0)
       && (n.sectors[12] != 0 ==> img' == img)
  }

  /** The lines of sync_dir_entry between its two loops, up to reading the table. */
  method EnsureTable(vol: Volume, dir: Inode) returns (tier2: seq<u32>)
    requires Unsynced(vol, dir)
    requires dir.iSectors[12] == 0 ==> FreeBlocks(vol.sb, vol.blockBitmap.All()) > 0
    modifies vol, vol.blockBitmap.bits, dir`iSectors
    ensures Unsynced(vol, dir)
    ensures Shaped(vol.sb, old(vol.State())) && Shaped(vol.sb, vol.State())
    ensures TableReady(vol.sb, old(vol.State()), vol.State(), dir.iNo)
    ensures tier2 == vol.table[dir.iNo].entries
  {
    hide Owned, BitsOf, Untouched, View, Record, OnDisk, FreeBlocks;
    ghost var a, ino := vol.State(), dir.iNo;
    vol.CoreShaped();
    assert a.table[ino].Ptr(12) == dir.iSectors[12];
    var blockLba := dir.iSectors[12];
    if blockLba == 0 {
      blockLba := AllocatePartBlock(vol, ino, 12);
      dir.iSectors := dir.iSectors[12 := blockLba];
      OthersStayOnDisk(vol.sb, a, vol.State(), ino);
      assert vol.table[ino].Ptr(12) == blockLba;
    } else {
      OthersUntouchedReflexive(vol.sb, a, ino);
    }
    UnpackPack(vol.table[ino].entries);
    tier2 := Unpack(At(vol.disk, blockLba));
  }

  lemma PreparedViaTable(sb: SuperBlock, a: Img, m: Img, b: Img, ino: nat, blk: nat)
    requires Shaped(sb, a) && Shaped(sb, m) && Shaped(sb, b) && ino in a.table && 12 <= blk < BLOCKS
    requires TableReady(sb, a, m, ino) && Prepared(sb, m, b, ino, blk)
    ensures Prepared(sb, a, b, ino, blk)
  {
    hide Untouched, View, FreeBlocks;
    OthersUntouchedTransitive(sb, a, m, b, ino);
    forall c | 0 <= c < BLOCKS
      ensures m.table[ino].BlockPtr(c) == a.table[ino].BlockPtr(c)
    {
      if c < 12 {
        assert m.table[ino].sectors[..12][c] == a.table[ino].sectors[..12][c];
      }
    }
    assert blk * PER_SECTOR / PER_SECTOR == blk;
  }

  /** The first lines of an iteration over the indirect blocks: a missing sector is taken and the table written back. */
  method EnsureEntry(vol: Volume, dir: Inode, idx: nat, tier2: seq<u32>) returns (lba: u32, tier2': seq<u32>)
    requires Unsynced(vol, dir) && idx < ENTRIES && dir.iSectors[12] != 0 && tier2 == vol.table[dir.iNo].entries
    requires tier2[idx] == 0 ==> FreeBlocks(vol.sb, vol.blockBitmap.All()) > 0
    modifies vol, vol.blockBitmap.bits
    ensures Unsynced(vol, dir) && tier2' == vol.table[dir.iNo].entries
    ensures Shaped(vol.sb, old(vol.State())) && Shaped(vol.sb, vol.State())
    ensures tier2[idx] != 0 ==> vol.State() == old(vol.State())
    ensures Prepared(vol.sb, old(vol.State()), vol.State(), dir.iNo, 12 + idx)
    ensures lba == vol.table[dir.iNo].BlockPtr(12 + idx)
  {
    hide Owned, BitsOf, Untouched, View, Record, OnDisk, FreeBlocks;
    ghost var a, ino := vol.State(), dir.iNo;
    vol.CoreShaped();
    lba, tier2' := tier2[idx], tier2;
    assert a.table[ino].BlockPtr(12 + idx) == lba;
    if lba == 0 {
      lba := AllocatePartBlock(vol, ino, 13 + idx);
      ghost var b := vol.State();
      ExtendedPrepared(vol.sb, a, b, ino, 12 + idx, lba);
      tier2' := tier2[idx := lba];
      WriteIndirectTable(vol, dir, tier2');
      vol.CoreShaped();
      PreparedWritten(vol.sb, a, b, vol.State(), ino, 12 + idx);
      OthersStayOnDisk(vol.sb, a, vol.State(), ino);
    } else {
      PreparedAlready(vol.sb, a, ino, 12 + idx);
    }
  }

  lemma PreparedWritten(sb: SuperBlock, a: Img, b: Img, c: Img, ino: nat, blk: nat)
    requires Shaped(sb, a) && Shaped(sb, b) && Shaped(sb, c) && ino in a.table && blk < BLOCKS
    requires Prepared(sb, a, b, ino, blk)
    requires OthersUntouched(sb, b, c, ino) && c.table == b.table && c.bits == b.bits
    requires forall k :: 0 <= k < BLOCKS ==> View(c.disk, c.table[ino], k) == View(b.disk, b.table[ino], k)
    ensures Prepared(sb, a, c, ino, blk)
  {
    hide Untouched, View, FreeBlocks;
    OthersUntouchedTransitive(sb, a, b, c, ino);
  }

  /** There are enough free sectors for filling the first free slot. */
  ghost predicate RoomForEntry(sb: SuperBlock, img: Img, ino: nat)
    requires Shaped(sb, img) && ino in img.table
  {
    forall i :: 0 <= i < SLOTS && FirstFree(Slots(img.disk, img.table[ino]), i) ==>
      SlotCost(img.table[ino], i) <= FreeBlocks(sb, img.bits)
  }

  lemma RoomDirect(sb: SuperBlock, img: Img, ino: nat, b: nat)
    requires Shaped(sb, img) && ino in img.table && RoomForEntry(sb, img, ino)
    requires b < BLOCKS && LiveBelow(Slots(img.disk, img.table[ino]), b * PER_SECTOR)
    ensures img.table[ino].BlockPtr(b) == 0 ==>
              FreeBlocks(sb, img.bits) >= 1 + if b >= 12 && img.table[ino].sectors[12] == 0 then 1 else 0
  {
    hide Slots, FreeBlocks;
    if img.table[ino].BlockPtr(b) == 0 {
      MissingBlockFree(img.disk, img.table[ino], b);
      assert b * PER_SECTOR / PER_SECTOR == b;
      assert FirstFree(Slots(img.disk, img.table[ino]), b * PER_SECTOR);
    }
  }

  /** sync_dir_entry: the entry goes into the first free slot; it fails only if all 2940 slots are live. */
  method SyncDirEntry(vol: Volume, dir: Inode, e: DirEntry) returns (ok: bool, ghost slot: nat)
    requires Unsynced(vol, dir) && e.Ok()
    requires dir.iSize + DIR_ENTRY_SIZE < 0x1_0000_0000
    requires Shaped(vol.sb, vol.State()) && RoomForEntry(vol.sb, vol.State(), dir.iNo)
    modifies vol, vol.blockBitmap.bits, dir
    ensures Unsynced(vol, dir) && dir.iNo == old(dir.iNo)
    ensures Shaped(vol.sb, vol.State())
    ensures !ok ==> vol.State() == old(vol.State())
    ensures !ok ==> LiveBelow(Slots(vol.disk, vol.table[dir.iNo]), SLOTS)
    ensures ok ==> FirstFree(Slots(old(vol.disk), old(vol.table[dir.iNo])), slot)
    ensures ok ==> Added(vol.sb, old(vol.State()), vol.State(), dir.iNo, slot, e)
  {
    hide Owned, BitsOf, OthersUntouched, View, TableLoaded, OnDisk, FreeBlocks, EntryAt, Slots, Added, RoomForEntry, Prepared;
    hide Volume.Core;
    ghost var a, ino := vol.State(), dir.iNo;
    ghost var s := Slots(a.disk, a.table[ino]);
    slot := 0;
    for idx := 0 to 12
      invariant Unsynced(vol, dir) && dir.iNo == ino && dir.iSize == old(dir.iSize)
      invariant vol.State() == a
      invariant LiveBelow(s, idx * PER_SECTOR)
    {
      RoomDirect(vol.sb, a, ino, idx);
      assert a.table[ino].BlockPtr(idx) == dir.iSectors[idx];
      var blockLba := EnsureDirect(vol, dir, idx);
      PreparedPtr(vol.sb, a, vol.State(), ino, idx);
      ok, slot := TryBlock(vol, dir, idx, blockLba, e, a, s);
      if ok {
        return;
      }
      MissingContradiction(a, ino, idx);
    }
    ok, slot := SyncIndirect(vol, dir, e);
  }

  lemma PreparedPtr(sb: SuperBlock, a: Img, b: Img, ino: nat, blk: nat)
    requires Shaped(sb, a) && Shaped(sb, b) && ino in a.table && blk < BLOCKS
    requires Prepared(sb, a, b, ino, blk)
    ensures ino in b.table && b.table[ino].BlockPtr(blk) != 0
  {
  }

  /** If every slot of a block is live, the block has a sector. */
  lemma MissingContradiction(a: Img, ino: nat, b: nat)
    requires ino in a.table && a.table[ino].Ok() && b < BLOCKS
    requires LiveBelow(Slots(a.disk, a.table[ino]), (b + 1) * PER_SECTOR)
    ensures a.table[ino].BlockPtr(b) != 0
  {
    hide Slots;
    assert b * PER_SECTOR < SLOTS && Slots(a.disk, a.table[ino])[b * PER_SECTOR].Live();
    if a.table[ino].BlockPtr(b) == 0 {
      MissingBlockFree(a.disk, a.table[ino], b);
    }
  }

  /** Without an indirect table there is no block 12. */
  lemma TableNeeded(a: Img, ino: nat)
    requires ino in a.table && a.table[ino].Ok() && TableLoaded(a.disk, a.table[ino])
    ensures a.table[ino].sectors[12] == 0 ==> a.table[ino].BlockPtr(12) == 0
  {
  }

  /** The part of sync_dir_entry that searches the indirect blocks. */
  method SyncIndirect(vol: Volume, dir: Inode, e: DirEntry) returns (ok: bool, ghost slot: nat)
    requires Unsynced(vol, dir) && e.Ok()
    requires dir.iSize + DIR_ENTRY_SIZE < 0x1_0000_0000
    requires Shaped(vol.sb, vol.State()) && RoomForEntry(vol.sb, vol.State(), dir.iNo)
    requires LiveBelow(Slots(vol.disk, vol.table[dir.iNo]), 12 * PER_SECTOR)
    modifies vol, vol.blockBitmap.bits, dir
    ensures Unsynced(vol, dir) && dir.iNo == old(dir.iNo)
    ensures Shaped(vol.sb, vol.State())
    ensures !ok ==> vol.State() == old(vol.State())
    ensures !ok ==> LiveBelow(Slots(vol.disk, vol.table[dir.iNo]), SLOTS)
    ensures ok ==> FirstFree(Slots(old(vol.disk), old(vol.table[dir.iNo])), slot)
    ensures ok ==> Added(vol.sb, old(vol.State()), vol.State(), dir.iNo, slot, e)
  {
    hide Owned, BitsOf, OthersUntouched, View, TableLoaded, OnDisk, FreeBlocks, EntryAt, Slots, Added, RoomForEntry, Prepared;
    hide Volume.Core;
    ghost var a, ino := vol.State(), dir.iNo;
    ghost var s := Slots(a.disk, a.table[ino]);
    slot := 0;
    TableNeeded(a, ino);
    RoomDirect(vol.sb, a, ino, 12);
    var tier2 := EnsureTable(vol, dir);
    ghost var m := vol.State();
    for idx := 0 to ENTRIES
      invariant Unsynced(vol, dir) && dir.iNo == ino && dir.iSize == old(dir.iSize)
      invariant vol.State() == m && tier2 == m.table[ino].entries
      invariant LiveBelow(s, (12 + idx) * PER_SECTOR)
    {
      RoomDirect(vol.sb, a, ino, 12 + idx);
      assert a.table[ino].BlockPtr(12 + idx) == tier2[idx];
      var blockLba, tier2' := EnsureEntry(vol, dir, idx, tier2);
      PreparedViaTable(vol.sb, a, m, vol.State(), ino, 12 + idx);
      PreparedPtr(vol.sb, a, vol.State(), ino, 12 + idx);
      ok, slot := TryBlock(vol, dir, 12 + idx, blockLba, e, a, s);
      if ok {
        return;
      }
      MissingContradiction(a, ino, 12 + idx);
      tier2 := tier2';
    }
    ok := false;
    MissingContradiction(a, ino, 12);
  }

  /** Adding an entry with a new name keeps a directory in order and adds exactly that binding. */
  lemma DirOkAfterAdd(sb: SuperBlock, img: Img, img': Img, ino: nat, i: nat, e: DirEntry)
    requires Shaped(sb, img) && Shaped(sb, img') && ino in img.table && i < SLOTS
    requires DirOk(img.disk, img.table[ino])
    requires FirstFree(Slots(img.disk, img.table[ino]), i)
    requires e.Ok() && e.Live() && 0 < |e.Name()| < NAME_LEN && e.Name() !in Names(Slots(img.disk, img.table[ino]))
    requires Grew(sb, img, img', ino, i, e)
    ensures ino in img'.table && DirOk(img'.disk, img'.table[ino])
    ensures Bindings(Slots(img'.disk, img'.table[ino])) ==
            Bindings(Slots(img.disk, img.table[ino]))[e.Name() := e]
  {
    hide View, EntryAt, Untouched, FreeBlocks, CString, Slots, NamesOk, Bindings, LiveEntries, Names;
    var n, n' := img.table[ino], img'.table[ino];
    var s, s' := Slots(img.disk, n), Slots(img'.disk, n');
    LiveEntriesUpdate(s, i, e);
    BindingsAfterAdd(s, i, e);
    forall b | 0 <= b < BLOCKS && n'.BlockPtr(b) != 0
      ensures BlockInUse(s', b)
    {
      if b == i / PER_SECTOR {
        assert s'[i].Live();
      } else {
        var j :| b * PER_SECTOR <= j < b * PER_SECTOR + PER_SECTOR && s[j].Live();
        assert s'[j].Live();
      }
    }
    EntryInUse(n, n', i / PER_SECTOR);
  }

  lemma EntryInUse(n: Node, n': Node, b: nat)
    requires n.Ok() && n'.Ok() && b < BLOCKS && n'.BlockPtr(b) != 0
    requires n.sectors[12] != 0 ==> exists q :: 0 <= q < ENTRIES && n.entries[q] != 0
    requires forall c :: 0 <= c < BLOCKS && c != b ==> n'.BlockPtr(c) == n.BlockPtr(c)
    requires if b < 12 then n'.sectors[12] == n.sectors[12] else n'.sectors[12] != 0
    ensures n'.sectors[12] != 0 ==> exists q :: 0 <= q < ENTRIES && n'.entries[q] != 0
  {
    if b >= 12 {
      assert n'.entries[b - 12] != 0;
    } else if n.sectors[12] != 0 {
      var q :| 0 <= q < ENTRIES && n.entries[q] != 0;
      assert n'.BlockPtr(12 + q) == n.BlockPtr(12 + q);
      assert n'.entries[q] != 0;
    }
  }

  // --- Reading a directory's block map ---

  /** all_blocks, as the functions that only look at a directory set it up. */
  method DirBlocks(vol: Volume, dir: Inode) returns (allBlocks: seq<u32>)
    requires Unsynced(vol, dir)
    ensures |allBlocks| == BLOCKS
    ensures forall b :: 0 <= b < BLOCKS ==> allBlocks[b] == vol.table[dir.iNo].BlockPtr(b)
  {
    hide Owned, BitsOf, OnDisk;
    vol.CoreShaped();
    ghost var n := vol.table[dir.iNo];
    assert n.Ptr(12) == dir.iSectors[12];
    if dir.iSectors[12] != 0 {
      UnpackPack(n.entries);
      allBlocks := dir.iSectors[..12] + Unpack(At(vol.disk, dir.iSectors[12]));
    } else {
      allBlocks := dir.iSectors[..12] + seq(ENTRIES, _ => 0);
    }
  }

  // --- search_dir_entry ---

  /** search_dir_entry: the names of all slots are compared, free ones included, whose name is empty. */
  method SearchDirEntry(vol: Volume, dir: Inode, name: seq<byte>) returns (found: bool, e: DirEntry)
    requires Unsynced(vol, dir) && vol.table[dir.iNo].Ok()
    requires DirOk(vol.disk, vol.table[dir.iNo])
    requires 0 < |name| < NAME_LEN
    ensures found <==> name in Bindings(Slots(vol.disk, vol.table[dir.iNo]))
    ensures found ==> e == Bindings(Slots(vol.disk, vol.table[dir.iNo]))[name]
  {
    hide View, EntryAt, CString, Slots, Owned, BitsOf, OnDisk, TableLoaded;
    hide Volume.Core;
    ghost var n := vol.table[dir.iNo];
    ghost var s := Slots(vol.disk, n);
    var allBlocks := DirBlocks(vol, dir);
    e := ZeroEntry();
    for b := 0 to BLOCKS
      invariant forall i :: 0 <= i < b * PER_SECTOR ==> i < SLOTS && s[i].Name() != name
    {
      if allBlocks[b] == 0 {
        MissingBlockAllFree(vol.disk, n, b);
        ZeroName();
      } else {
        BlockSlots(vol.disk, n, b, allBlocks[b]);
        var ioBuf := At(vol.disk, allBlocks[b]);
        for k := 0 to PER_SECTOR
          invariant forall i :: 0 <= i < b * PER_SECTOR + k ==> i < SLOTS && s[i].Name() != name
        {
          assert s[b * PER_SECTOR + k] == EntryAt(ioBuf, k);
          if EntryAt(ioBuf, k).Name() == name {
            e := EntryAt(ioBuf, k);
            FoundIsBinding(s, b * PER_SECTOR + k);
            return true, e;
          }
        }
      }
    }
    found := false;
  }

  lemma ZeroName()
    ensures ZeroEntry().Name() == []
  {
  }

  lemma FoundIsBinding(s: seq<DirEntry>, i: nat)
    requires NamesOk(s) && i < |s| && s[i].Name() != []
    requires !s[i].Live() ==> s[i] == ZeroEntry()
    ensures s[i].Name() in Bindings(s) && Bindings(s)[s[i].Name()] == s[i]
  {
    ZeroName();
    BindingAt(s, i);
  }

  lemma MissingBlockAllFree(disk: seq<Sector>, n: Node, b: nat)
    requires n.Ok() && b < BLOCKS && n.BlockPtr(b) == 0
    ensures forall i :: b * PER_SECTOR <= i < (b + 1) * PER_SECTOR ==> i < SLOTS && Slots(disk, n)[i] == ZeroEntry()
  {
    hide View, EntryAt, Slots, Zeros, ZeroEntry;
    ViewAt(disk, n, b);
    forall i | b * PER_SECTOR <= i < (b + 1) * PER_SECTOR
      ensures i < SLOTS && Slots(disk, n)[i] == ZeroEntry()
    {
      SlotOf(disk, n, b, i - b * PER_SECTOR);
      ZeroSlot(i - b * PER_SECTOR);
    }
  }

  // --- delete_dir_entry ---

  /** Slot i is live and names inode inodeNo. */
  ghost predicate NamesInode(s: seq<DirEntry>, i: nat, inodeNo: u32)
    requires i < |s|
  {
    s[i].Live() && s[i].iNo == inodeNo
  }

  /** At most one entry names the inode: it is neither the directory itself nor its parent. */
  ghost predicate NamedOnce(s: seq<DirEntry>, inodeNo: u32) {
    forall i, j :: 0 <= i < |s| && 0 <= j < |s| && NamesInode(s, i, inodeNo) && NamesInode(s, j, inodeNo) ==> i == j
  }

  /** Slot i is the only live one of its block. */
  ghost predicate LastOfBlock(s: seq<DirEntry>, i: nat)
    requires |s| == SLOTS && i < SLOTS
  {
    forall j :: i / PER_SECTOR * PER_SECTOR <= j < (i / PER_SECTOR + 1) * PER_SECTOR && j < SLOTS && s[j].Live() ==> j == i
  }

  /** Slot i of directory ino has been cleared. A block that held nothing else has given its sector back, and so has the
      indirect table if no block behind it is left. */
  ghost predicate Shrank(sb: SuperBlock, img: Img, img': Img, ino: nat, i: nat)
    requires Shaped(sb, img) && Shaped(sb, img') && ino in img.table && i < SLOTS
  {
    && ino in img'.table
    && var n, n', b := img.table[ino], img'.table[ino], i / PER_SECTOR;
       var emptied := LastOfBlock(Slots(img.disk, n), i);
       var tableFreed := emptied && b >= 12 && n'.entries == seq(ENTRIES, _ => 0);
       && n'.size == n.size - DIR_ENTRY_SIZE
       && Slots(img'.disk, n') == Slots(img.disk, n)[i := ZeroEntry()]
       && (forall c :: 0 <= c < BLOCKS && c != b ==> n'.BlockPtr(c) == n.BlockPtr(c))
       && n'.BlockPtr(b) == (if emptied then 0 else n.BlockPtr(b))
       && n'.sectors[12] == (if tableFreed then 0 else n.sectors[12])
  }

  /** That, the sectors given back are free, and nothing has happened to any other inode. */
  ghost predicate Deleted(sb: SuperBlock, img: Img, img': Img, ino: nat, i: nat)
    requires Shaped(sb, img) && Shaped(sb, img') && ino in img.table && i < SLOTS
  {
    && OthersUntouched(sb, img, img', ino)
    && Shrank(sb, img, img', ino, i)
    && var n, n', b := img.table[ino], img'.table[ino], i / PER_SECTOR;
       var emptied := LastOfBlock(Slots(img.disk, n), i);
       var tableFreed := emptied && b >= 12 && n'.entries == seq(ENTRIES, _ => 0);
       FreeBlocks(sb, img'.bits) ==
       FreeBlocks(sb, img.bits) + (if emptied then 1 else 0) + (if tableFreed then 1 else 0)
  }

  /** The loop over one block of delete_dir_entry: the number of live entries, and the one that names inodeNo or -1.
      The ASSERT that there is at most one such entry holds by the precondition. */
  method ScanBlock(vol: Volume, lba: nat, inodeNo: u32) returns (cnt: nat, found: int)
    requires forall k, j :: 0 <= k < j < PER_SECTOR ==>
               var e, f := EntryAt(At(vol.disk, lba), k), EntryAt(At(vol.disk, lba), j);
               !(e.Live() && e.iNo == inodeNo && f.Live() && f.iNo == inodeNo)
    ensures -1 <= found < PER_SECTOR
    ensures found >= 0 ==>
              var e := EntryAt(At(vol.disk, lba), found); e.Live() && e.iNo == inodeNo
    ensures found >= 0 ==> cnt >= 1
    ensures found >= 0 ==> (cnt == 1 <==>
              forall k :: 0 <= k < PER_SECTOR && EntryAt(At(vol.disk, lba), k).Live() ==> k == found)
    ensures found == -1 ==> forall k :: 0 <= k < PER_SECTOR ==>
              var e := EntryAt(At(vol.disk, lba), k); !(e.Live() && e.iNo == inodeNo)
  {
    hide EntryAt;
    var ioBuf := At(vol.disk, lba);
    cnt, found := 0, -1;
    ghost var other := -1;
    for k := 0 to PER_SECTOR
      invariant -1 <= found < k
      invariant found >= 0 ==> EntryAt(ioBuf, found).Live() && EntryAt(ioBuf, found).iNo == inodeNo
      invariant found == -1 ==> forall j :: 0 <= j < k ==> !(EntryAt(ioBuf, j).Live() && EntryAt(ioBuf, j).iNo == inodeNo)
      invariant -1 <= other < k && (other >= 0 ==> other != found && EntryAt(ioBuf, other).Live())
      invariant cnt == 0 <==> forall j :: 0 <= j < k ==> !EntryAt(ioBuf, j).Live()
      invariant found >= 0 ==> cnt >= 1 && (cnt == 1 <==> other == -1)
      invariant found == -1 ==> (cnt >= 1 <==> other >= 0)
      invariant found >= 0 && other == -1 ==> forall j :: 0 <= j < k && EntryAt(ioBuf, j).Live() ==> j == found
    {
      var e := EntryAt(ioBuf, k);
      if e.fType != FT_UNKNOWN {
        cnt := cnt + 1;
        if e.iNo == inodeNo {
          found := k;
        } else {
          other := k;
        }
      }
    }
  }

  /** Block b of directory ino has given its sector back, and so has an indirect table that has become empty. */
  ghost predicate Dropped(sb: SuperBlock, img: Img, img': Img, ino: nat, b: nat)
    requires Shaped(sb, img) && Shaped(sb, img') && ino in img.table && b < BLOCKS
  {
    && OthersUntouched(sb, img, img', ino)
    && var n, n' := img.table[ino], img'.table[ino];
       var tableFreed := b >= 12 && n'.entries == seq(ENTRIES, _ => 0);
       && n'.size == n.size
       && n'.BlockPtr(b) == 0
       && (forall c :: 0 <= c < BLOCKS && c != b ==> n'.BlockPtr(c) == n.BlockPtr(c))
       && n'.sectors[12] == (if tableFreed then 0 else n.sectors[12])
       && (forall c :: 0 <= c < BLOCKS && c != b ==> View(img'.disk, n', c) == View(img.disk, n, c))
       && FreeBlocks(sb, img'.bits) == FreeBlocks(sb, img.bits) + 1 + if tableFreed then 1 else 0
  }

  lemma DroppedOthers(sb: SuperBlock, img: Img, img': Img, ino: nat, b: nat)
    requires Shaped(sb, img) && Shaped(sb, img') && ino in img.table && b < BLOCKS
    requires Dropped(sb, img, img', ino, b)
    ensures OthersUntouched(sb, img, img', ino)
  {
  }

  lemma RevokedNode(sb: SuperBlock, img: Img, img': Img, ino: nat, pos: nat)
    requires Owned(sb, img) && ino in img.table && pos < POINTERS
    requires Revoked(sb, img, img', ino, pos)
    ensures Owned(sb, img') && Shaped(sb, img') && OthersUntouched(sb, img, img', ino)
    ensures img'.table == img.table[ino := img.table[ino].WithPtr(pos, 0)]
    ensures forall b :: 0 <= b < BLOCKS && PosOf(b) != pos ==>
              View(img'.disk, img'.table[ino], b) == View(img.disk, img.table[ino], b)
    ensures pos < 12 && TableLoaded(img.disk, img.table[ino]) ==> TableLoaded(img'.disk, img'.table[ino])
  {
  }

  lemma DirectDropped(sb: SuperBlock, a: Img, b: Img, ino: nat, blk: nat)
    requires Owned(sb, a) && Shaped(sb, a) && Shaped(sb, b) && ino in a.table && blk < 12
    requires Revoked(sb, a, b, ino, PosOf(blk)) && FreeBlocks(sb, b.bits) == FreeBlocks(sb, a.bits) + 1
    ensures Dropped(sb, a, b, ino, blk)
  {
    hide Owned, Untouched, View, FreeBlocks, Revoked;
    RevokedNode(sb, a, b, ino, PosOf(blk));
    assert b.table[ino].Ptr(12) == a.table[ino].Ptr(12);
  }

  /** What do_delete_dir_entry does about an emptied direct block. */
  method DropDirect(vol: Volume, dir: Inode, blockIdx: nat)
    requires Unsynced(vol, dir) && blockIdx < 12 && dir.iSectors[blockIdx] != 0
    modifies vol, vol.blockBitmap.bits, dir`iSectors
    ensures Unsynced(vol, dir)
    ensures Shaped(vol.sb, old(vol.State())) && Shaped(vol.sb, vol.State())
    ensures Dropped(vol.sb, old(vol.State()), vol.State(), dir.iNo, blockIdx)
  {
    hide Owned, BitsOf, Untouched, View, TableLoaded, OnDisk, FreeBlocks, Revoked;
    ghost var a, ino := vol.State(), dir.iNo;
    vol.CoreShaped();
    assert a.table[ino].Ptr(blockIdx) == dir.iSectors[blockIdx];
    vol.FreeFor(dir.iSectors[blockIdx], ino, blockIdx);
    RevokedNode(vol.sb, a, vol.State(), ino, blockIdx);
    dir.iSectors := dir.iSectors[blockIdx := 0];
    OthersStayOnDisk(vol.sb, a, vol.State(), ino);
    DirectDropped(vol.sb, a, vol.State(), ino, blockIdx);
  }

  /** The counting loop over the indirect part of all_blocks. */
  method CountIndirect(allBlocks: seq<u32>) returns (cnt: nat)
    requires |allBlocks| == BLOCKS
    ensures cnt == 0 <==> allBlocks[12..] == seq(ENTRIES, _ => 0)
  {
    cnt := 0;
    for idx := 12 to 140
      invariant cnt == 0 <==> forall k :: 12 <= k < idx ==> allBlocks[k] == 0
    {
      if allBlocks[idx] != 0 {
        cnt := cnt + 1;
      }
    }
    if cnt == 0 {
      assert forall k :: 0 <= k < ENTRIES ==> allBlocks[12..][k] == allBlocks[12 + k];
    } else {
      var k :| 12 <= k < 140 && allBlocks[k] != 0;
      assert allBlocks[12..][k - 12] != 0;
    }
  }

  lemma IndirectDropped(sb: SuperBlock, a: Img, b: Img, c: Img, ino: nat, blk: nat)
    requires Owned(sb, a) && Owned(sb, b) && Shaped(sb, a) && Shaped(sb, b) && Shaped(sb, c)
    requires ino in a.table && 12 <= blk < BLOCKS
    requires Revoked(sb, a, b, ino, PosOf(blk)) && FreeBlocks(sb, b.bits) == FreeBlocks(sb, a.bits) + 1
    requires if b.table[ino].entries == seq(ENTRIES, _ => 0) then
               Revoked(sb, b, c, ino, 12) && FreeBlocks(sb, c.bits) == FreeBlocks(sb, b.bits) + 1
             else
               && OthersUntouched(sb, b, c, ino) && c.table == b.table && c.bits == b.bits
               && forall k :: 0 <= k < BLOCKS ==> View(c.disk, c.table[ino], k) == View(b.disk, b.table[ino], k)
    ensures Dropped(sb, a, c, ino, blk)
  {
    hide Owned, Untouched, View, FreeBlocks, Revoked;
    RevokedNode(sb, a, b, ino, PosOf(blk));
    var n, m, k := a.table[ino], b.table[ino], c.table;
    assert m.Ptr(12) == n.Ptr(12);
    if m.entries == seq(ENTRIES, _ => 0) {
      RevokedNode(sb, b, c, ino, 12);
      assert c.table[ino].Ptr(12) == 0;
    }
    OthersUntouchedTransitive(sb, a, b, c, ino);
    forall q | 0 <= q < BLOCKS && q != blk
      ensures m.BlockPtr(q) == n.BlockPtr(q)
      ensures View(b.disk, m, q) == View(a.disk, n, q)
    {
      assert PosOf(q) != PosOf(blk);
    }
  }

  lemma EntriesOfBlocks(n: Node, blocks: seq<u32>)
    requires n.Ok() && |blocks| == BLOCKS && forall b :: 0 <= b < BLOCKS ==> blocks[b] == n.BlockPtr(b)
    ensures blocks[12..] == n.entries
  {
    forall k | 0 <= k < ENTRIES
      ensures blocks[12..][k] == n.entries[k]
    {
      assert blocks[12 + k] == n.BlockPtr(12 + k);
    }
  }

  /** The entry of an emptied block leaves the table in memory; on disk the table is out of date for now. */
  method DropEntry(vol: Volume, dir: Inode, blockIdx: nat, blocks: seq<u32>) returns (allBlocks: seq<u32>)
    requires Unsynced(vol, dir) && 12 <= blockIdx < BLOCKS
    requires |blocks| == BLOCKS && forall b :: 0 <= b < BLOCKS ==> blocks[b] == vol.table[dir.iNo].BlockPtr(b)
    requires blocks[blockIdx] != 0
    modifies vol, vol.blockBitmap.bits
    ensures vol.Core() && dir.iNo in vol.table && dir.Shows(vol.table[dir.iNo]) && dir.iSectors[12] != 0
    ensures Owned(vol.sb, old(vol.State()))
    ensures Revoked(vol.sb, old(vol.State()), vol.State(), dir.iNo, PosOf(blockIdx))
    ensures FreeBlocks(vol.sb, vol.blockBitmap.All()) == FreeBlocks(vol.sb, old(vol.blockBitmap.All())) + 1
    ensures |allBlocks| == BLOCKS && allBlocks[12..] == vol.table[dir.iNo].entries
  {
    hide Owned, BitsOf, Untouched, View, OnDisk, FreeBlocks, Revoked, Pack;
    ghost var a, ino := vol.State(), dir.iNo;
    vol.CoreShaped();
    EntriesOfBlocks(a.table[ino], blocks);
    assert a.table[ino].entries[blockIdx - 12] == blocks[blockIdx];
    vol.FreeFor(blocks[blockIdx], ino, PosOf(blockIdx));
    RevokedNode(vol.sb, a, vol.State(), ino, PosOf(blockIdx));
    allBlocks := blocks[blockIdx := 0];
    EntriesOfBlocks(vol.table[ino], allBlocks);
  }

  /** What do_delete_dir_entry does about an emptied indirect block: the table goes too if it is empty now. */
  method DropIndirect(vol: Volume, dir: Inode, blockIdx: nat, blocks: seq<u32>)
    requires Unsynced(vol, dir) && 12 <= blockIdx < BLOCKS
    requires |blocks| == BLOCKS && forall b :: 0 <= b < BLOCKS ==> blocks[b] == vol.table[dir.iNo].BlockPtr(b)
    requires blocks[blockIdx] != 0
    modifies vol, vol.blockBitmap.bits, dir`iSectors
    ensures Unsynced(vol, dir)
    ensures Shaped(vol.sb, old(vol.State())) && Shaped(vol.sb, vol.State())
    ensures Dropped(vol.sb, old(vol.State()), vol.State(), dir.iNo, blockIdx)
  {
    hide Owned, BitsOf, Untouched, View, OnDisk, FreeBlocks, Revoked, Pack, Dropped;
    hide Volume.Core;
    ghost var a, ino := vol.State(), dir.iNo;
    vol.CoreShaped();
    var allBlocks := DropEntry(vol, dir, blockIdx, blocks);
    ghost var m := vol.State();
    vol.CoreShaped();
    assert m.table[ino].Ptr(12) == dir.iSectors[12];
    var indirectBlocks := CountIndirect(allBlocks);
    if indirectBlocks == 0 {
      vol.FreeFor(dir.iSectors[12], ino, 12);
      RevokedNode(vol.sb, m, vol.State(), ino, 12);
      dir.iSectors := dir.iSectors[12 := 0];
    } else {
      WriteIndirectTable(vol, dir, allBlocks[12..]);
    }
    vol.CoreShaped();
    IndirectDropped(vol.sb, a, m, vol.State(), ino, blockIdx);
    DroppedOthers(vol.sb, a, vol.State(), ino, blockIdx);
    OthersStayOnDisk(vol.sb, a, vol.State(), ino);
  }

  /** Free slots are all zeros. */
  ghost predicate FreeAreZero(s: seq<DirEntry>) {
    forall i :: 0 <= i < |s| && !s[i].Live() ==> s[i] == ZeroEntry()
  }

  /** Dropping a block whose only live entry is slot i clears that slot and no other. */
  lemma SlotsAfterDrop(disk: seq<Sector>, n: Node, disk': seq<Sector>, n': Node, i: nat)
    requires n.Ok() && n'.Ok() && i < SLOTS
    requires FreeAreZero(Slots(disk, n)) && LastOfBlock(Slots(disk, n), i)
    requires n'.BlockPtr(i / PER_SECTOR) == 0
    requires forall c :: 0 <= c < BLOCKS && c != i / PER_SECTOR ==> View(disk', n', c) == View(disk, n, c)
    ensures Slots(disk', n') == Slots(disk, n)[i := ZeroEntry()]
  {
    hide View, EntryAt, ZeroEntry, Slots;
    var s, s', b := Slots(disk, n), Slots(disk', n'), i / PER_SECTOR;
    MissingBlockAllFree(disk', n', b);
    forall j | 0 <= j < SLOTS
      ensures s'[j] == s[i := ZeroEntry()][j]
    {
      if j / PER_SECTOR != b {
        SlotOf(disk, n, j / PER_SECTOR, j % PER_SECTOR);
        SlotOf(disk', n', j / PER_SECTOR, j % PER_SECTOR);
      } else {
        assert b * PER_SECTOR <= j < (b + 1) * PER_SECTOR;
      }
    }
  }

  /** Slot i of the directory has been cleared in its block or with its block; size and record are still to follow. */
  ghost predicate Cleared(sb: SuperBlock, img: Img, img': Img, ino: nat, i: nat)
    requires Shaped(sb, img) && Shaped(sb, img') && ino in img.table && i < SLOTS
  {
    && OthersUntouched(sb, img, img', ino)
    && var n, n', b := img.table[ino], img'.table[ino], i / PER_SECTOR;
       var emptied := LastOfBlock(Slots(img.disk, n), i);
       var tableFreed := emptied && b >= 12 && n'.entries == seq(ENTRIES, _ => 0);
       && n'.size == n.size
       && Slots(img'.disk, n') == Slots(img.disk, n)[i := ZeroEntry()]
       && (forall c :: 0 <= c < BLOCKS && c != b ==> n'.BlockPtr(c) == n.BlockPtr(c))
       && n'.BlockPtr(b) == (if emptied then 0 else n.BlockPtr(b))
       && n'.sectors[12] == (if tableFreed then 0 else n.sectors[12])
       && FreeBlocks(sb, img'.bits) ==
          FreeBlocks(sb, img.bits) + (if emptied then 1 else 0) + (if tableFreed then 1 else 0)
  }

  /** do_delete_dir_entry up to the size: slot i, entry k of block b, is cleared. */
  method ClearSlot(vol: Volume, dir: Inode, b: nat, k: nat, cnt: nat, allBlocks: seq<u32>, ghost i: nat)
    requires Unsynced(vol, dir) && b < BLOCKS && k < PER_SECTOR && i == b * PER_SECTOR + k
    requires |allBlocks| == BLOCKS && forall c :: 0 <= c < BLOCKS ==> allBlocks[c] == vol.table[dir.iNo].BlockPtr(c)
    requires allBlocks[b] != 0
    requires i < SLOTS && FreeAreZero(Slots(vol.disk, vol.table[dir.iNo]))
    requires cnt == 1 <==> LastOfBlock(Slots(vol.disk, vol.table[dir.iNo]), i)
    modifies vol, vol.blockBitmap.bits, dir`iSectors
    ensures Unsynced(vol, dir)
    ensures Shaped(vol.sb, old(vol.State())) && Shaped(vol.sb, vol.State())
    ensures Cleared(vol.sb, old(vol.State()), vol.State(), dir.iNo, i)
  {
    hide Owned, BitsOf, Untouched, View, TableLoaded, OnDisk, FreeBlocks, Slots, EntryAt, PutEntry, LastOfBlock, FreeAreZero, ZeroEntry;
    hide Volume.Core;
    ghost var a, ino := vol.State(), dir.iNo;
    assert i / PER_SECTOR == b;
    if cnt == 1 {
      if b < 12 {
        DropDirect(vol, dir, b);
      } else {
        DropIndirect(vol, dir, b, allBlocks);
      }
      SlotsAfterDrop(a.disk, a.table[ino], vol.disk, vol.table[ino], i);
    } else {
      ViewAt(a.disk, a.table[ino], b);
      WriteDirSector(vol, dir, b, allBlocks[b], PutEntry(At(vol.disk, allBlocks[b]), k, ZeroEntry()));
      SlotsAfterPut(a.disk, a.table[ino], vol.disk, vol.table[ino], b, k, ZeroEntry());
    }
  }

  lemma DeletedInSteps(sb: SuperBlock, a: Img, b: Img, c: Img, d: Img, ino: nat, i: nat)
    requires Shaped(sb, a) && Shaped(sb, b) && Shaped(sb, c) && Shaped(sb, d) && ino in a.table && i < SLOTS
    requires Cleared(sb, a, b, ino, i)
    requires OthersUntouched(sb, b, c, ino) && OthersUntouched(sb, c, d, ino)
    requires a.table[ino].size >= DIR_ENTRY_SIZE
    requires c.table[ino] == b.table[ino].(size := b.table[ino].size - DIR_ENTRY_SIZE)
    requires d.table == c.table && c.bits == b.bits && d.bits == c.bits
    requires Slots(c.disk, c.table[ino]) == Slots(b.disk, b.table[ino])
    requires Slots(d.disk, d.table[ino]) == Slots(c.disk, c.table[ino])
    ensures Deleted(sb, a, d, ino, i)
  {
    hide Untouched, FreeBlocks, Slots, ZeroEntry, LastOfBlock;
    OthersUntouchedTransitive(sb, a, b, c, ino);
    OthersUntouchedTransitive(sb, a, c, d, ino);
    assert forall q :: 0 <= q < BLOCKS ==> d.table[ino].BlockPtr(q) == b.table[ino].BlockPtr(q);
  }

  /** do_delete_dir_entry */
  method DoDelete(vol: Volume, dir: Inode, b: nat, k: nat, cnt: nat, allBlocks: seq<u32>, ghost i: nat)
    requires vol.Valid() && dir.iNo in vol.table && dir.Shows(vol.table[dir.iNo])
    requires b < BLOCKS && k < PER_SECTOR && i == b * PER_SECTOR + k
    requires |allBlocks| == BLOCKS && forall c :: 0 <= c < BLOCKS ==> allBlocks[c] == vol.table[dir.iNo].BlockPtr(c)
    requires allBlocks[b] != 0 && dir.iSize >= DIR_ENTRY_SIZE
    requires i < SLOTS && FreeAreZero(Slots(vol.disk, vol.table[dir.iNo]))
    requires cnt == 1 <==> LastOfBlock(Slots(vol.disk, vol.table[dir.iNo]), i)
    modifies vol, vol.blockBitmap.bits, dir
    ensures vol.Valid() && dir.iNo == old(dir.iNo) && dir.iNo in vol.table && dir.Shows(vol.table[dir.iNo])
    ensures Shaped(vol.sb, old(vol.State())) && Shaped(vol.sb, vol.State())
    ensures Deleted(vol.sb, old(vol.State()), vol.State(), dir.iNo, i)
  {
    hide Owned, BitsOf, Untouched, View, TableLoaded, FreeBlocks, Slots, LastOfBlock, FreeAreZero, ZeroEntry, Record, Cleared;
    hide Volume.Core;
    ghost var a, ino := vol.State(), dir.iNo;
    ValidUnsynced(vol, dir);
    vol.CoreShaped();
    ClearSlot(vol, dir, b, k, cnt, allBlocks, i);
    ghost var m := vol.State();
    ClearedSize(vol.sb, a, m, ino, i);
    Resize(vol, dir, dir.iSize - DIR_ENTRY_SIZE);
    ghost var c := vol.State();
    SlotsSame(m.disk, m.table[ino], c.disk, c.table[ino]);
    SyncDir(vol, dir);
    SlotsSame(c.disk, c.table[ino], vol.disk, vol.table[ino]);
    DeletedInSteps(vol.sb, a, m, c, vol.State(), ino, i);
  }

  lemma ClearedSize(sb: SuperBlock, img: Img, img': Img, ino: nat, i: nat)
    requires Shaped(sb, img) && Shaped(sb, img') && ino in img.table && i < SLOTS
    requires Cleared(sb, img, img', ino, i)
    ensures ino in img'.table && img'.table[ino].size == img.table[ino].size
  {
  }

  lemma ValidUnsynced(vol: Volume, dir: Inode)
    requires vol.Valid() && dir.iNo in vol.table && dir.Shows(vol.table[dir.iNo])
    ensures vol.Core() && vol.Settled() && Unsynced(vol, dir)
  {
  }

  /** The inode_sync that completes a change of a directory. */
  method SyncDir(vol: Volume, dir: Inode)
    requires Unsynced(vol, dir) && vol.Settled()
    modifies vol`disk
    ensures vol.Valid() && dir.Shows(vol.table[dir.iNo])
    ensures Shaped(vol.sb, old(vol.State())) && Shaped(vol.sb, vol.State())
    ensures OthersUntouched(vol.sb, old(vol.State()), vol.State(), dir.iNo)
    ensures forall b :: 0 <= b < BLOCKS ==>
              View(vol.disk, vol.table[dir.iNo], b) == View(old(vol.disk), vol.table[dir.iNo], b)
  {
    hide Owned, BitsOf, Untouched, View, TableLoaded, OnDisk, Record;
    ghost var a := vol.State();
    vol.CoreShaped();
    vol.InodeSync(dir);
    OwnedShaped(vol.sb, vol.State());
    OthersStayOnDisk(vol.sb, a, vol.State(), dir.iNo);
  }

  /** delete_dir_entry: clears the slot that names the inode, if there is one. */
  method DeleteDirEntry(vol: Volume, dir: Inode, inodeNo: u32) returns (ok: bool, ghost slot: nat)
    requires vol.Valid() && dir.iNo in vol.table && dir.Shows(vol.table[dir.iNo])
    requires DirOk(vol.disk, vol.table[dir.iNo])
    requires NamedOnce(Slots(vol.disk, vol.table[dir.iNo]), inodeNo)
    modifies vol, vol.blockBitmap.bits, dir
    ensures vol.Valid() && dir.iNo == old(dir.iNo) && dir.iNo in vol.table && dir.Shows(vol.table[dir.iNo])
    ensures Shaped(vol.sb, old(vol.State())) && Shaped(vol.sb, vol.State())
    ensures !ok ==> vol.State() == old(vol.State())
    ensures !ok ==> forall i :: 0 <= i < SLOTS ==> !NamesInode(Slots(vol.disk, vol.table[dir.iNo]), i, inodeNo)
    ensures ok ==> slot < SLOTS && NamesInode(Slots(old(vol.disk), old(vol.table[dir.iNo])), slot, inodeNo)
    ensures ok ==> Deleted(vol.sb, old(vol.State()), vol.State(), dir.iNo, slot)
  {
    hide Owned, BitsOf, View, TableLoaded, OnDisk, FreeBlocks, Slots, EntryAt, LastOfBlock, Deleted, DirOk, NamedOnce, CString;
    ghost var n := vol.table[dir.iNo];
    ghost var s := Slots(vol.disk, n);
    vol.CoreShaped();
    ValidUnsynced(vol, dir);
    DirOkFree(vol.disk, n);
    slot := 0;
    var allBlocks := DirBlocks(vol, dir);
    for b := 0 to BLOCKS
      invariant vol.State() == old(vol.State()) && unchanged(dir) && vol.Valid()
      invariant forall i :: 0 <= i < b * PER_SECTOR ==> i < SLOTS && !NamesInode(s, i, inodeNo)
    {
      if allBlocks[b] == 0 {
        MissingBlockAllFree(vol.disk, n, b);
      } else {
        ScanInBlock(vol.disk, n, b, allBlocks[b], inodeNo);
        var cnt, found := ScanBlock(vol, allBlocks[b], inodeNo);
        ScannedBlock(vol.disk, n, b, allBlocks[b], inodeNo, cnt, found);
        if found >= 0 {
          slot := b * PER_SECTOR + found;
          LiveSize(vol.disk, n, slot);
          DoDelete(vol, dir, b, found, cnt, allBlocks, slot);
          return true, slot;
        }
      }
    }
    ok := false;
  }

  lemma DirOkFree(disk: seq<Sector>, n: Node)
    requires n.Ok() && DirOk(disk, n)
    ensures FreeAreZero(Slots(disk, n))
  {
  }

  lemma LiveSize(disk: seq<Sector>, n: Node, i: nat)
    requires n.Ok() && DirOk(disk, n) && i < SLOTS && Slots(disk, n)[i].Live()
    ensures n.size >= DIR_ENTRY_SIZE
  {
    hide Slots, NamesOk;
    LiveEntriesUpdate(Slots(disk, n), i, ZeroEntry());
  }

  lemma ScanInBlock(disk: seq<Sector>, n: Node, b: nat, lba: u32, inodeNo: u32)
    requires n.Ok() && b < BLOCKS && lba == n.BlockPtr(b) != 0
    requires NamedOnce(Slots(disk, n), inodeNo)
    ensures forall k, j :: 0 <= k < j < PER_SECTOR ==>
              var e, f := EntryAt(At(disk, lba), k), EntryAt(At(disk, lba), j);
              !(e.Live() && e.iNo == inodeNo && f.Live() && f.iNo == inodeNo)
  {
    hide EntryAt, Slots;
    BlockSlots(disk, n, b, lba);
    var s := Slots(disk, n);
    forall k, j | 0 <= k < j < PER_SECTOR
      ensures var e, f := EntryAt(At(disk, lba), k), EntryAt(At(disk, lba), j);
              !(e.Live() && e.iNo == inodeNo && f.Live() && f.iNo == inodeNo)
    {
      var x, y := b * PER_SECTOR + k, b * PER_SECTOR + j;
      assert s[x] == EntryAt(At(disk, lba), k) && s[y] == EntryAt(At(disk, lba), j);
      assert !(NamesInode(s, x, inodeNo) && NamesInode(s, y, inodeNo));
    }
  }

  lemma ScannedBlock(disk: seq<Sector>, n: Node, b: nat, lba: u32, inodeNo: u32, cnt: nat, found: int)
    requires n.Ok() && b < BLOCKS && lba == n.BlockPtr(b) != 0
    requires -1 <= found < PER_SECTOR
    requires found >= 0 ==>
              var e := EntryAt(At(disk, lba), found); e.Live() && e.iNo == inodeNo
    requires found >= 0 ==> (cnt == 1 <==>
              forall k :: 0 <= k < PER_SECTOR && EntryAt(At(disk, lba), k).Live() ==> k == found)
    requires found == -1 ==> forall k :: 0 <= k < PER_SECTOR ==>
              var e := EntryAt(At(disk, lba), k); !(e.Live() && e.iNo == inodeNo)
    ensures (b + 1) * PER_SECTOR <= SLOTS
    ensures found == -1 ==> forall i :: b * PER_SECTOR <= i < (b + 1) * PER_SECTOR ==> !NamesInode(Slots(disk, n), i, inodeNo)
    ensures found >= 0 ==> NamesInode(Slots(disk, n), b * PER_SECTOR + found, inodeNo)
    ensures found >= 0 ==> (cnt == 1 <==> LastOfBlock(Slots(disk, n), b * PER_SECTOR + found))
  {
    hide EntryAt, Slots;
    BlockSlots(disk, n, b, lba);
    var s := Slots(disk, n);
    if found >= 0 {
      var i := b * PER_SECTOR + found;
      assert s[i] == EntryAt(At(disk, lba), found);
      assert i / PER_SECTOR == b;
      if LastOfBlock(s, i) {
        forall k | 0 <= k < PER_SECTOR && EntryAt(At(disk, lba), k).Live()
          ensures k == found
        {
          var j := b * PER_SECTOR + k;
          assert s[j] == EntryAt(At(disk, lba), k);
        }
      }
      if forall k :: 0 <= k < PER_SECTOR && EntryAt(At(disk, lba), k).Live() ==> k == found {
        forall j | b * PER_SECTOR <= j < (b + 1) * PER_SECTOR && s[j].Live()
          ensures j == i
        {
          assert s[j] == EntryAt(At(disk, lba), j - b * PER_SECTOR);
        }
      }
    }
  }

  /** Deleting an entry keeps a directory in order and removes exactly that binding. */
  lemma DirOkAfterDelete(sb: SuperBlock, img: Img, img': Img, ino: nat, i: nat)
    requires Shaped(sb, img) && Shaped(sb, img') && ino in img.table && i < SLOTS
    requires DirOk(img.disk, img.table[ino]) && Slots(img.disk, img.table[ino])[i].Live()
    requires Shrank(sb, img, img', ino, i)
    ensures ino in img'.table && DirOk(img'.disk, img'.table[ino])
    ensures Bindings(Slots(img'.disk, img'.table[ino])) ==
            Bindings(Slots(img.disk, img.table[ino])) - {Slots(img.disk, img.table[ino])[i].Name()}
  {
    hide View, EntryAt, Untouched, FreeBlocks, CString, Slots, NamesOk, Bindings, LiveEntries, Names, LastOfBlock;
    var n, n' := img.table[ino], img'.table[ino];
    var s, s' := Slots(img.disk, n), Slots(img'.disk, n');
    LiveEntriesUpdate(s, i, ZeroEntry());
    BindingsAfterDelete(s, i);
    forall b | 0 <= b < BLOCKS && n'.BlockPtr(b) != 0
      ensures BlockInUse(s', b)
    {
      StillInUse(s, i, b);
    }
    EntryStillInUse(n, n', i / PER_SECTOR);
  }

  /** A block with a live entry still has one after slot i is cleared, unless slot i was its last. */
  lemma StillInUse(s: seq<DirEntry>, i: nat, b: nat)
    requires |s| == SLOTS && i < SLOTS && s[i].Live() && b < BLOCKS && BlockInUse(s, b)
    requires b == i / PER_SECTOR ==> !LastOfBlock(s, i)
    ensures BlockInUse(s[i := ZeroEntry()], b)
  {
    var t := s[i := ZeroEntry()];
    if b == i / PER_SECTOR {
      var j :| b * PER_SECTOR <= j < (b + 1) * PER_SECTOR && j < SLOTS && s[j].Live() && j != i;
      assert t[j].Live();
    } else {
      var j :| b * PER_SECTOR <= j < b * PER_SECTOR + PER_SECTOR && s[j].Live();
      assert t[j].Live();
    }
  }

  lemma EntryStillInUse(n: Node, n': Node, b: nat)
    requires n.Ok() && n'.Ok() && b < BLOCKS
    requires n.sectors[12] != 0 ==> exists q :: 0 <= q < ENTRIES && n.entries[q] != 0
    requires forall c :: 0 <= c < BLOCKS && c != b ==> n'.BlockPtr(c) == n.BlockPtr(c)
    requires n'.BlockPtr(b) == n.BlockPtr(b) || b < 12 || n'.sectors[12] == 0 || n'.entries != seq(ENTRIES, _ => 0)
    requires n'.sectors[12] != 0 ==> n'.sectors[12] == n.sectors[12]
    ensures n'.sectors[12] != 0 ==> exists q :: 0 <= q < ENTRIES && n'.entries[q] != 0
  {
    if n'.sectors[12] != 0 {
      if n'.BlockPtr(b) == n.BlockPtr(b) || b < 12 {
        var q :| 0 <= q < ENTRIES && n.entries[q] != 0;
        assert n'.BlockPtr(12 + q) == n.BlockPtr(12 + q);
        assert n'.entries[q] != 0;
      }
    }
  }

  // --- dir_is_empty and dir_remove ---

  /** dir_is_empty, for a directory in order whose first two slots are taken: no other slot is, and then the blocks that
      dir_remove asserts to be absent are. */
  method DirIsEmpty(vol: Volume, dir: Inode) returns (r: bool)
    requires vol.Valid() && dir.iNo in vol.table && dir.Shows(vol.table[dir.iNo])
    requires DirOk(vol.disk, vol.table[dir.iNo])
    requires Slots(vol.disk, vol.table[dir.iNo])[0].Live() && Slots(vol.disk, vol.table[dir.iNo])[1].Live()
    ensures r <==> forall i :: 2 <= i < SLOTS ==> !Slots(vol.disk, vol.table[dir.iNo])[i].Live()
    ensures r ==> forall k :: 1 <= k < 13 ==> dir.iSectors[k] == 0
  {
    hide Owned, BitsOf, Slots, DirOk, Record;
    hide Volume.Core;
    vol.CoreShaped();
    assert OnDisk(vol.sb, vol.disk, dir.iNo, vol.table[dir.iNo]);
    EmptyMeans(vol.disk, vol.table[dir.iNo]);
    r := dir.iSize == DIR_ENTRY_SIZE * 2;
  }

  /** In a directory whose "." and ".." occupy its first two slots, the size tells whether it has any other entry; and if
      it has none, the blocks that dir_remove asserts to be absent are. */
  lemma EmptyMeans(disk: seq<Sector>, n: Node)
    requires n.Ok() && DirOk(disk, n) && TableLoaded(disk, n)
    requires Slots(disk, n)[0].Live() && Slots(disk, n)[1].Live()
    ensures n.size == 2 * DIR_ENTRY_SIZE <==> forall i :: 2 <= i < SLOTS ==> !Slots(disk, n)[i].Live()
    ensures n.size == 2 * DIR_ENTRY_SIZE ==> forall k :: 1 <= k < 13 ==> n.sectors[k] == 0
  {
    hide Slots, NamesOk, View;
    var s := Slots(disk, n);
    OnlyFirstTwo(s);
    if n.size == 2 * DIR_ENTRY_SIZE {
      forall b | 1 <= b < BLOCKS
        ensures n.BlockPtr(b) == 0
      {
        assert !BlockInUse(s, b);
      }
      forall k | 1 <= k < 12
        ensures n.sectors[k] == 0
      {
        assert n.BlockPtr(k) == 0;
      }
      forall q | 0 <= q < ENTRIES
        ensures n.entries[q] == 0
      {
        assert n.BlockPtr(12 + q) == 0;
      }
    }
  }

  lemma OnlyFirstTwo(s: seq<DirEntry>)
    requires |s| == SLOTS && s[0].Live() && s[1].Live()
    ensures |LiveEntries(s)| == 2 <==> forall i :: 2 <= i < SLOTS ==> !s[i].Live()
  {
    LiveCount(s, SLOTS);
    assert s[..SLOTS] == s;
  }

  lemma {:induction false} LiveCount(s: seq<DirEntry>, n: nat)
    requires 2 <= n <= |s| && s[0].Live() && s[1].Live()
    ensures |LiveEntries(s[..n])| >= 2
    ensures |LiveEntries(s[..n])| == 2 <==> forall i :: 2 <= i < n ==> !s[i].Live()
  {
    if n == 2 {
      assert LiveEntries(s[..2]) == [s[0], s[1]] by {
        assert s[..2][..1] == s[..1] && s[..1][..0] == [];
        assert LiveEntries(s[..1]) == LiveEntries(s[..1][..0]) + [s[0]];
      }
    } else {
      assert s[..n][..n - 1] == s[..n - 1];
      LiveCount(s, n - 1);
    }
  }

  // --- dir_read ---

  /** `struct dir`: an open directory and how far it has been read. */
  class Dir {
    var inode: Inode
    var dirPos: u32

    constructor (inode: Inode)
      ensures this.inode == inode && dirPos == 0
    {
      this.inode, dirPos := inode, 0;
    }
  }

  lemma {:induction false} LiveEntriesPrefix(s: seq<DirEntry>, n: nat)
    requires n <= |s|
    ensures LiveEntries(s[..n]) <= LiveEntries(s)
    decreases |s| - n
  {
    if n < |s| {
      assert s[..n + 1][..n] == s[..n];
      LiveEntriesPrefix(s, n + 1);
    } else {
      assert s[..n] == s;
    }
  }

  /** The loop over one block of dir_read: counts live entries until the one that lies past the position. */
  method ReadInBlock(ioBuf: Sector, ghost s: seq<DirEntry>, ghost lo: nat, start: nat, dirPos: nat)
    returns (e: Option<DirEntry>, curPos: nat)
    requires lo + PER_SECTOR <= |s| && forall i :: lo <= i < lo + PER_SECTOR ==> s[i] == EntryAt(ioBuf, i - lo)
    requires start == DIR_ENTRY_SIZE * |LiveEntries(s[..lo])| <= dirPos
    requires dirPos % DIR_ENTRY_SIZE == 0
    ensures e.None? ==> curPos == DIR_ENTRY_SIZE * |LiveEntries(s[..lo + PER_SECTOR])| <= dirPos
    ensures e.Some? ==> curPos == dirPos + DIR_ENTRY_SIZE
    ensures e.Some? ==> dirPos / DIR_ENTRY_SIZE < |LiveEntries(s)| && e.value == LiveEntries(s)[dirPos / DIR_ENTRY_SIZE]
  {
    hide EntryAt;
    curPos := start;
    for k := 0 to PER_SECTOR
      invariant curPos == DIR_ENTRY_SIZE * |LiveEntries(s[..lo + k])| <= dirPos
    {
      ghost var i := lo + k;
      assert s[i] == EntryAt(ioBuf, k);
      assert s[..i + 1][..i] == s[..i];
      if EntryAt(ioBuf, k).fType != FT_UNKNOWN {
        curPos := curPos + DIR_ENTRY_SIZE;
        if curPos > dirPos {
          assert dirPos + DIR_ENTRY_SIZE == curPos;
          LiveEntriesPrefix(s, i + 1);
          e := Some(EntryAt(ioBuf, k));
          return;
        }
      }
    }
    e := None;
  }

  /** dir_read: the live entry at the directory's position, in slot order, or none. The position is a multiple of the
      entry size that has not passed the size, as it is after opening or rewinding and as every call leaves it. */
  method DirRead(vol: Volume, dir: Dir) returns (e: Option<DirEntry>)
    requires Unsynced(vol, dir.inode) && dir.inode.iNo in vol.table && vol.table[dir.inode.iNo].Ok()
    requires DirOk(vol.disk, vol.table[dir.inode.iNo])
    requires dir.dirPos % DIR_ENTRY_SIZE == 0 && dir.dirPos <= dir.inode.iSize
    modifies dir`dirPos
    ensures dir.dirPos % DIR_ENTRY_SIZE == 0 && dir.dirPos <= dir.inode.iSize
    ensures var live, k := LiveEntries(Slots(vol.disk, vol.table[dir.inode.iNo])), old(dir.dirPos) / DIR_ENTRY_SIZE;
            && (k < |live| ==> e == Some(live[k]) && dir.dirPos == old(dir.dirPos) + DIR_ENTRY_SIZE)
            && (k >= |live| ==> e == None && dir.dirPos == old(dir.dirPos))
  {
    hide View, EntryAt, CString, Slots, Owned, BitsOf, OnDisk, TableLoaded, DirOk, LiveEntries;
    hide Volume.Core;
    ghost var n := vol.table[dir.inode.iNo];
    ghost var s := Slots(vol.disk, n);
    LiveTotal(vol.disk, n);
    NoneBefore(s);
    var allBlocks := DirBlocks(vol, dir.inode);
    var curPos := 0;
    for b := 0 to BLOCKS
      invariant b * PER_SECTOR <= SLOTS
      invariant curPos == DIR_ENTRY_SIZE * |LiveEntries(s[..b * PER_SECTOR])| <= dir.dirPos
      invariant dir.dirPos == old(dir.dirPos)
    {
      if dir.dirPos > dir.inode.iSize {
        return None;
      }
      if allBlocks[b] == 0 {
        MissingBlockAllFree(vol.disk, n, b);
        SkipFree(s, b * PER_SECTOR, (b + 1) * PER_SECTOR);
      } else {
        BlockSlots(vol.disk, n, b, allBlocks[b]);
        e, curPos := ReadInBlock(At(vol.disk, allBlocks[b]), s, b * PER_SECTOR, curPos, dir.dirPos);
        if e.Some? {
          dir.dirPos := curPos;
          return;
        }
      }
    }
    assert s[..SLOTS] == s;
    e := None;
  }

  lemma NoneBefore(s: seq<DirEntry>)
    ensures LiveEntries(s[..0]) == []
  {
  }

  lemma LiveTotal(disk: seq<Sector>, n: Node)
    requires n.Ok() && DirOk(disk, n)
    ensures n.size == DIR_ENTRY_SIZE * |LiveEntries(Slots(disk, n))|
  {
  }

  lemma {:induction false} SkipFree(s: seq<DirEntry>, lo: nat, hi: nat)
    requires lo <= hi <= |s| && forall i :: lo <= i < hi ==> !s[i].Live()
    ensures LiveEntries(s[..hi]) == LiveEntries(s[..lo])
  {
    if lo < hi {
      assert s[..hi][..hi - 1] == s[..hi - 1];
      SkipFree(s, lo, hi - 1);
    }
  }

  /** Reading a directory from the start until there is nothing more gives every live entry once, in slot order, and
      another call gives nothing again. */
  method ReadAll(vol: Volume, dir: Dir) returns (entries: seq<DirEntry>, again: Option<DirEntry>)
    requires Unsynced(vol, dir.inode) && dir.inode.iNo in vol.table && vol.table[dir.inode.iNo].Ok()
    requires DirOk(vol.disk, vol.table[dir.inode.iNo])
    requires dir.dirPos == 0
    modifies dir`dirPos
    ensures entries == LiveEntries(Slots(vol.disk, vol.table[dir.inode.iNo]))
    ensures again == None
  {
    hide Slots, DirOk, LiveEntries, Unsynced;
    ghost var live := LiveEntries(Slots(vol.disk, vol.table[dir.inode.iNo]));
    LiveTotal(vol.disk, vol.table[dir.inode.iNo]);
    entries := [];
    var e := DirRead(vol, dir);
    while e.Some?
      invariant dir.dirPos % DIR_ENTRY_SIZE == 0 && dir.dirPos <= dir.inode.iSize
      invariant e.Some? ==> dir.dirPos == DIR_ENTRY_SIZE * (|entries| + 1)
      invariant e.Some? ==> |entries| < |live| && entries == live[..|entries|] && e.value == live[|entries|]
      invariant e.None? ==> entries == live && dir.dirPos == DIR_ENTRY_SIZE * |live|
      decreases |live| - |entries|, e.Some?
    {
      entries := entries + [e.value];
      e := DirRead(vol, dir);
    }
    again := DirRead(vol, dir);
  }
}
