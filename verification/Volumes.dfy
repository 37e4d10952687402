/** A mounted partition in memory: fs/file.c's block allocation and fs/inode.c's access to the inode table. */
module Volumes {
  import opened Words
  import opened Bitmaps
  import opened Layout
  import opened InodeTable
  import opened BlockMap

  /** `struct inode` */
  class Inode {
    var iNo: u32
    var iSize: u32
    var iOpenCnt: nat
    var writeDeny: bool
    var iSectors: seq<u32>

    constructor (rec: InodeRec)
      ensures iNo == rec.iNo && iSize == rec.iSize && iSectors == rec.iSectors
      ensures iOpenCnt == 1 && !writeDeny
    {
      iNo, iSize, iSectors := rec.iNo, rec.iSize, rec.iSectors;
      iOpenCnt, writeDeny := 1, false;
    }

    /** This in-core inode has inode n's persistent state. */
    ghost predicate Shows(n: Node)
      reads this
    {
      n.Ok() && iSize == n.size && iSectors == n.sectors
    }
  }

  /** The clear bits that stand for sectors of the partition. */
  ghost function FreeBlocks(sb: SuperBlock, bits: seq<bool>): nat
    requires WellFormed(sb) && |bits| == BITS_PER_SECTOR * sb.blockBitmapSects
  {
    CountClear(bits[..Usable(sb)])
  }

  /** Sector s of a bitmap in memory. */
  function BitmapSector(bytes: seq<byte>, s: nat): Sector
    requires SECTOR_SIZE * s + SECTOR_SIZE <= |bytes|
  {
    bytes[SECTOR_SIZE * s..SECTOR_SIZE * s + SECTOR_SIZE]
  }

  /** The bitmap's sectors on disk hold what it holds in memory. */
  ghost predicate BitmapOnDisk(disk: seq<Sector>, lba: nat, sects: nat, bytes: seq<byte>)
    requires |bytes| == SECTOR_SIZE * sects
  {
    forall s :: 0 <= s < sects ==> At(disk, lba + s) == BitmapSector(bytes, s)
  }

  lemma BitmapRead(disk: seq<Sector>, lba: nat, sects: nat, bytes: seq<byte>)
    requires |bytes| == SECTOR_SIZE * sects
    requires forall i :: 0 <= i < |bytes| ==> bytes[i] == At(disk, lba + i / SECTOR_SIZE)[i % SECTOR_SIZE]
    ensures BitmapOnDisk(disk, lba, sects, bytes)
  {
    forall s | 0 <= s < sects
      ensures At(disk, lba + s) == BitmapSector(bytes, s)
    {
      forall k | 0 <= k < SECTOR_SIZE
        ensures BitmapSector(bytes, s)[k] == At(disk, lba + s)[k]
      {
        assert (SECTOR_SIZE * s + k) / SECTOR_SIZE == s && (SECTOR_SIZE * s + k) % SECTOR_SIZE == k;
      }
    }
  }

  /** The same, but for one sector. */
  ghost predicate BitmapOnDiskBut(disk: seq<Sector>, lba: nat, sects: nat, bytes: seq<byte>, but: nat)
    requires |bytes| == SECTOR_SIZE * sects
  {
    forall s :: 0 <= s < sects && s != but ==> At(disk, lba + s) == BitmapSector(bytes, s)
  }

  /** Changing one byte in memory leaves one sector on disk out of date. */
  lemma ByteChanged(disk: seq<Sector>, lba: nat, sects: nat, bytes: seq<byte>, bytes': seq<byte>, bit: nat)
    requires |bytes| == |bytes'| == SECTOR_SIZE * sects
    requires BitmapOnDisk(disk, lba, sects, bytes)
    requires forall k :: 0 <= k < |bytes| && k != bit / 8 ==> bytes'[k] == bytes[k]
    ensures BitmapOnDiskBut(disk, lba, sects, bytes', bit / BITS_PER_SECTOR)
  {
    forall s | 0 <= s < sects && s != bit / BITS_PER_SECTOR
      ensures BitmapSector(bytes', s) == BitmapSector(bytes, s)
    {
      assert !(SECTOR_SIZE * s <= bit / 8 < SECTOR_SIZE * s + SECTOR_SIZE);
    }
  }

  /** Only sectors of the two bitmaps differ. */
  ghost predicate OnlyBitmapsChanged(sb: SuperBlock, disk: seq<Sector>, disk': seq<Sector>) {
    && |disk'| == |disk|
    && forall l :: 0 <= l < |disk| && !(sb.blockBitmapLba <= l < sb.inodeTableLba) ==> disk'[l] == disk[l]
  }

  /** The lowest clear bit stands for a sector of the partition if and only if one of those that do is clear, as one is while
      fewer bits are set than there are sectors that the bitmap tracks. */
  lemma LowestClear(sb: SuperBlock, bits: seq<bool>, r: nat)
    requires WellFormed(sb) && |bits| == BITS_PER_SECTOR * sb.blockBitmapSects
    requires r < |bits| && !bits[r] && forall s :: 0 <= s < r ==> bits[s]
    ensures FreeBlocks(sb, bits) > 0 <==> sb.dataStartLba + r < sb.partLbaBase + sb.secCnt
    ensures FreeBlocks(sb, bits) > 0 ==> r < Usable(sb)
    ensures |bits| - CountClear(bits) < Usable(sb) ==> FreeBlocks(sb, bits) > 0
  {
    CountClearPrefix(bits, Usable(sb));
    if FreeBlocks(sb, bits) > 0 {
      var i := CountClearPositive(bits[..Usable(sb)]);
      assert !bits[i];
    } else if r < Usable(sb) {
      CountClearZero(bits[..Usable(sb)], r);
    }
  }

  lemma FreeBlocksUpdate(sb: SuperBlock, bits: seq<bool>, i: nat, v: bool)
    requires WellFormed(sb) && |bits| == BITS_PER_SECTOR * sb.blockBitmapSects
    requires i < Usable(sb)
    ensures FreeBlocks(sb, bits[i := v]) == FreeBlocks(sb, bits) + (if bits[i] then 1 else 0) - (if v then 1 else 0)
  {
    assert bits[i := v][..Usable(sb)] == bits[..Usable(sb)][i := v];
    CountClearUpdate(bits[..Usable(sb)], i, v);
  }

  /** Pointer pos of inode ino has been given sector l, which was free, and that has been recorded on disk. */
  ghost predicate Granted(sb: SuperBlock, img: Img, img': Img, ino: nat, pos: nat, l: u32)
    requires Owned(sb, img) && ino in img.table && pos < POINTERS
  {
    && Owned(sb, img')
    && sb.dataStartLba <= l < sb.dataStartLba + Usable(sb)
    && l !in img.owner
    && img'.table == img.table[ino := img.table[ino].WithPtr(pos, l)]
    && OnlyBitmapsChanged(sb, img.disk, img'.disk)
    && OthersUntouched(sb, img, img', ino)
    && (forall b :: 0 <= b < BLOCKS && PosOf(b) != pos ==>
          View(img'.disk, img'.table[ino], b) == View(img.disk, img.table[ino], b))
    && (pos < 12 && TableLoaded(img.disk, img.table[ino]) ==> TableLoaded(img'.disk, img'.table[ino]))
  }

  lemma BitmapsOnly(sb: SuperBlock, img: Img, disk': seq<Sector>)
    requires Owned(sb, img) && OnlyBitmapsChanged(sb, img.disk, disk')
    ensures Owned(sb, img.(disk := disk'))
    ensures Shaped(sb, img) && Shaped(sb, img.(disk := disk'))
    ensures forall j :: j in img.table ==> Untouched(sb, img, img.(disk := disk'), j)
    ensures forall j :: j in img.table && TableLoaded(img.disk, img.table[j]) ==> TableLoaded(disk', img.table[j])
  {
    hide Owned, Untouched, TableLoaded;
    OwnedShaped(sb, img);
    MetadataWrite(sb, img, disk');
    OwnedShaped(sb, img.(disk := disk'));
  }

  /** What a new value of one pointer, and new bitmaps on disk, leave alone. */
  lemma PointerStep(sb: SuperBlock, img: Img, img': Img, ino: nat, pos: nat, l: u32)
    requires Owned(sb, img) && Owned(sb, img') && ino in img.table && img.table[ino].Ok() && pos < POINTERS
    requires img'.table == img.table[ino := img.table[ino].WithPtr(pos, l)] && OnlyBitmapsChanged(sb, img.disk, img'.disk)
    requires |img'.bits| == |img.bits|
    ensures Shaped(sb, img) && Shaped(sb, img') && OthersUntouched(sb, img, img', ino)
    ensures forall b :: 0 <= b < BLOCKS && PosOf(b) != pos ==>
              View(img'.disk, img'.table[ino], b) == View(img.disk, img.table[ino], b)
    ensures pos < 12 && TableLoaded(img.disk, img.table[ino]) ==> TableLoaded(img'.disk, img'.table[ino])
  {
    hide Owned, Untouched, View, OnlyBitmapsChanged;
    OwnedShaped(sb, img);
    OwnedShaped(sb, img');
    var mid := img.(disk := img'.disk);
    BitmapsOnly(sb, img, img'.disk);
    PointerFrame(sb, mid, img', ino);
    PointerViews(img'.disk, mid.table[ino], pos, l);
    OthersUntouchedTransitive(sb, img, mid, img', ino);
    UntouchedViews(sb, img, mid, ino);
  }

  lemma GrantStep(sb: SuperBlock, img: Img, ino: nat, pos: nat, l: u32, disk': seq<Sector>)
    requires Owned(sb, img) && ino in img.table && pos < POINTERS && img.table[ino].Ptr(pos) == 0
    requires sb.dataStartLba <= l < sb.dataStartLba + Usable(sb) && !img.bits[l - sb.dataStartLba]
    requires OnlyBitmapsChanged(sb, img.disk, disk')
    ensures Owned(sb, Grant(sb, img, ino, pos, l).(disk := disk'))
    ensures Granted(sb, img, Grant(sb, img, ino, pos, l).(disk := disk'), ino, pos, l)
  {
    hide Owned, Untouched, View, TableLoaded, OnlyBitmapsChanged;
    OwnedShaped(sb, img);
    BitmapsOnly(sb, img, disk');
    GrantOwned(sb, img.(disk := disk'), ino, pos, l);
    PointerStep(sb, img, Grant(sb, img, ino, pos, l).(disk := disk'), ino, pos, l);
  }

  /** Pointer pos of inode ino has been cleared, its sector is free again, and that has been recorded on disk. */
  ghost predicate Revoked(sb: SuperBlock, img: Img, img': Img, ino: nat, pos: nat)
    requires Owned(sb, img) && ino in img.table && pos < POINTERS
  {
    && Owned(sb, img')
    && img'.table == img.table[ino := img.table[ino].WithPtr(pos, 0)]
    && OnlyBitmapsChanged(sb, img.disk, img'.disk)
    && OthersUntouched(sb, img, img', ino)
    && (forall b :: 0 <= b < BLOCKS && PosOf(b) != pos ==>
          View(img'.disk, img'.table[ino], b) == View(img.disk, img.table[ino], b))
    && (pos < 12 && TableLoaded(img.disk, img.table[ino]) ==> TableLoaded(img'.disk, img'.table[ino]))
  }

  lemma RevokeStep(sb: SuperBlock, img: Img, ino: nat, pos: nat, disk': seq<Sector>)
    requires Owned(sb, img) && ino in img.table && pos < POINTERS && img.table[ino].Ptr(pos) != 0
    requires OnlyBitmapsChanged(sb, img.disk, disk')
    ensures sb.dataStartLba <= img.table[ino].Ptr(pos) < sb.dataStartLba + |img.bits|
    ensures Owned(sb, Revoke(sb, img, ino, pos).(disk := disk'))
    ensures Revoked(sb, img, Revoke(sb, img, ino, pos).(disk := disk'), ino, pos)
  {
    hide Owned, Untouched, View, TableLoaded, OnlyBitmapsChanged;
    OwnedShaped(sb, img);
    PtrOwned(sb, img, ino, pos);
    BitmapsOnly(sb, img, disk');
    RevokeOwned(sb, img.(disk := disk'), ino, pos);
    PointerStep(sb, img, Revoke(sb, img, ino, pos).(disk := disk'), ino, pos, 0);
  }

  /** What is outstanding about inode numbers: those taken in the inode bitmap for inodes that are not live yet, and the
      bytes of that bitmap that the disk holds. */
  class Ledger {
    ghost var pending: set<nat>
    ghost var synced: Sector

    constructor (ghost synced: Sector)
      ensures pending == {} && this.synced == synced
    {
      this.pending, this.synced := {}, synced;
    }
  }

  /** `struct partition`, with its super block, the disk it lies on and its two bitmaps. */
  class Volume {
    const sb: SuperBlock
    const blockBitmap: Bitmap
    const inodeBitmap: Bitmap
    const ledger: Ledger
    var disk: seq<Sector>
    ghost var table: map<nat, Node>
    ghost var owner: map<int, Owner>

    /** mount_partition: the bitmaps are read from the disk. The ghost arguments name the inodes and owners that the
        partition already has. */
    constructor (sb: SuperBlock, disk: seq<Sector>, ghost table: map<nat, Node>, ghost owner: map<int, Owner>)
      requires WellFormed(sb) && sb.dataStartLba <= |disk|
      ensures this.sb == sb && this.disk == disk && this.table == table && this.owner == owner
      ensures Shape() && fresh(blockBitmap.bits) && fresh(inodeBitmap.bits)
      ensures BitmapOnDisk(disk, sb.blockBitmapLba, sb.blockBitmapSects, blockBitmap.bits[..])
      ensures fresh(ledger) && ledger.pending == {}
      ensures ledger.synced == inodeBitmap.bits[..] == At(disk, sb.inodeBitmapLba)
    {
      var n := SECTOR_SIZE * sb.blockBitmapSects;
      var blockBits := new byte[n](i requires 0 <= i < n => At(disk, sb.blockBitmapLba + i / SECTOR_SIZE)[i % SECTOR_SIZE]);
      var inodeBits := new byte[SECTOR_SIZE](i requires 0 <= i < SECTOR_SIZE => At(disk, sb.inodeBitmapLba)[i]);
      this.sb, this.disk, this.table, this.owner := sb, disk, table, owner;
      blockBitmap := new Bitmap(blockBits, 0, n);
      inodeBitmap := new Bitmap(inodeBits, 0, SECTOR_SIZE);
      ledger := new Ledger(At(disk, sb.inodeBitmapLba));
      new;
      BitmapRead(disk, sb.blockBitmapLba, sb.blockBitmapSects, blockBits[..]);
      assert inodeBits[..] == At(disk, sb.inodeBitmapLba);
    }

    ghost function State(): Img
      reads this, blockBitmap.bits
    {
      Img(disk, blockBitmap.All(), table, owner)
    }

    ghost predicate Shape() {
      && blockBitmap.Valid() && blockBitmap.start == 0 && blockBitmap.bytesLen == blockBitmap.bits.Length
      && inodeBitmap.Valid() && inodeBitmap.start == 0 && inodeBitmap.bytesLen == inodeBitmap.bits.Length
      && blockBitmap.bits != inodeBitmap.bits
      && blockBitmap.bits.Length == SECTOR_SIZE * sb.blockBitmapSects
      && inodeBitmap.bits.Length == SECTOR_SIZE
    }

    /** What holds at every point of every operation: sectors are owned once, the block bitmap is on disk, and the inode
        bitmap says which inodes are live or about to be. */
    ghost predicate Core()
      reads this, blockBitmap.bits, inodeBitmap.bits, ledger
    {
      && Shape()
      && Owned(sb, State())
      && BitmapOnDisk(disk, sb.blockBitmapLba, sb.blockBitmapSects, blockBitmap.bits[..])
      && At(disk, sb.inodeBitmapLba) == ledger.synced
      && (forall j :: j in ledger.pending ==> j !in table)
      && forall j :: 0 <= j < MAX_FILES_PER_PART ==> (inodeBitmap.All()[j] <==> j in table || j in ledger.pending)
    }

    /** No inode number is outstanding and the inode bitmap is on disk. */
    ghost predicate Settled()
      reads inodeBitmap.bits, ledger
    {
      ledger.pending == {} && ledger.synced == inodeBitmap.bits[..]
    }

    /** Between operations the disk also holds every live inode's state. */
    ghost predicate Valid()
      reads this, blockBitmap.bits, inodeBitmap.bits, ledger
    {
      Core() && Settled() && forall j :: j in table ==> OnDisk(sb, disk, j, table[j])
    }

    lemma CoreShaped()
      requires Core()
      ensures Shape() && Owned(sb, State()) && Shaped(sb, State())
    {
    }

    /** disk_write of one sector */
    method DiskWrite(lba: nat, s: Sector)
      requires lba < |disk|
      modifies this`disk
      ensures disk == old(disk)[lba := s]
    {
      disk := disk[lba := s];
    }

    /** bitmap_sync for the block bitmap: writes the bitmap sector that holds a bit. */
    method BlockBitmapSync(bitIdx: nat)
      requires Shape() && WellFormed(sb) && sb.dataStartLba <= |disk|
      requires bitIdx < 8 * blockBitmap.bits.Length
      requires BitmapOnDiskBut(disk, sb.blockBitmapLba, sb.blockBitmapSects, blockBitmap.bits[..], bitIdx / BITS_PER_SECTOR)
      modifies this`disk
      ensures BitmapOnDisk(disk, sb.blockBitmapLba, sb.blockBitmapSects, blockBitmap.bits[..])
      ensures OnlyBitmapsChanged(sb, old(disk), disk) && disk[sb.inodeBitmapLba] == old(disk)[sb.inodeBitmapLba]
    {
      var offsetSec := bitIdx / (8 * 512);
      assert offsetSec < sb.blockBitmapSects;
      DiskWrite(sb.blockBitmapLba + offsetSec, BitmapSector(blockBitmap.bits[..], offsetSec));
    }

    /** block_bitmap_alloc: the address of the first free sector, which is marked in memory. */
    method BlockBitmapAlloc() returns (lba: u32)
      requires Shape() && WellFormed(sb)
      requires FreeBlocks(sb, blockBitmap.All()) > 0
      modifies blockBitmap.bits
      ensures sb.dataStartLba <= lba < sb.dataStartLba + Usable(sb)
      ensures !old(blockBitmap.All())[lba - sb.dataStartLba]
      ensures forall s :: 0 <= s < lba - sb.dataStartLba ==> old(blockBitmap.All())[s]
      ensures blockBitmap.All() == old(blockBitmap.All())[lba - sb.dataStartLba := true]
      ensures forall k :: 0 <= k < blockBitmap.bits.Length && k != (lba - sb.dataStartLba) / 8 ==>
                blockBitmap.bits[k] == old(blockBitmap.bits[k])
    {
      ghost var bits := blockBitmap.All();
      var idx := blockBitmap.TestAndSet();
      ghost var i := CountClearPositive(bits[..Usable(sb)]);
      assert !bits[i];
      assert idx != -1 by {
        assert idx == -1 ==> ClearRun(blockBitmap.Bits(), i, 1);
      }
      LowestClear(sb, bits, idx);
      lba := sb.dataStartLba + idx;
    }

    /** allocate_block: takes the first free sector and records that on disk too. */
    method AllocateBlock() returns (lba: u32)
      requires Shape() && WellFormed(sb) && sb.dataStartLba <= |disk|
      requires BitmapOnDisk(disk, sb.blockBitmapLba, sb.blockBitmapSects, blockBitmap.bits[..])
      requires FreeBlocks(sb, blockBitmap.All()) > 0
      modifies this`disk, blockBitmap.bits
      ensures sb.dataStartLba <= lba < sb.dataStartLba + Usable(sb)
      ensures !old(blockBitmap.All())[lba - sb.dataStartLba]
      ensures forall s :: 0 <= s < lba - sb.dataStartLba ==> old(blockBitmap.All())[s]
      ensures blockBitmap.All() == old(blockBitmap.All())[lba - sb.dataStartLba := true]
      ensures BitmapOnDisk(disk, sb.blockBitmapLba, sb.blockBitmapSects, blockBitmap.bits[..])
      ensures OnlyBitmapsChanged(sb, old(disk), disk) && disk[sb.inodeBitmapLba] == old(disk)[sb.inodeBitmapLba]
    {
      ghost var bytes := blockBitmap.bits[..];
      lba := BlockBitmapAlloc();
      ByteChanged(disk, sb.blockBitmapLba, sb.blockBitmapSects, bytes, blockBitmap.bits[..], lba - sb.dataStartLba);
      BlockBitmapSync(lba - sb.dataStartLba);
    }

    /** allocate_block for a pointer of an inode: the ghost arguments say in which pointer the caller is about to store
        the sector's address. */
    method AllocateFor(ghost ino: nat, ghost pos: nat) returns (lba: u32)
      requires Core()
      requires ino in table && pos < POINTERS && table[ino].Ptr(pos) == 0
      requires FreeBlocks(sb, blockBitmap.All()) > 0
      modifies this, blockBitmap.bits
      ensures Core() && Granted(sb, old(State()), State(), ino, pos, lba)
      ensures FreeBlocks(sb, blockBitmap.All()) == FreeBlocks(sb, old(blockBitmap.All())) - 1
    {
      hide Granted, Owned, FreeBlocks, BitsOf;
      ghost var img := State();
      OwnedShaped(sb, img);
      lba := AllocateBlock();
      FreeBlocksUpdate(sb, img.bits, lba - sb.dataStartLba, true);
      GrantStep(sb, img, ino, pos, lba, disk);
      table := table[ino := table[ino].WithPtr(pos, lba)];
      owner := owner[lba := Owner(ino, pos)];
      assert State() == Grant(sb, img, ino, pos, lba).(disk := disk);
    }

    /** `bitmap_set(&block_bitmap, lba - data_start_lba, 0)` and bitmap_sync */
    method FreeBlock(lba: u32)
      requires Shape() && WellFormed(sb) && sb.dataStartLba <= |disk|
      requires BitmapOnDisk(disk, sb.blockBitmapLba, sb.blockBitmapSects, blockBitmap.bits[..])
      requires sb.dataStartLba <= lba < sb.dataStartLba + 8 * blockBitmap.bits.Length
      modifies this`disk, blockBitmap.bits
      ensures blockBitmap.All() == old(blockBitmap.All())[lba - sb.dataStartLba := false]
      ensures BitmapOnDisk(disk, sb.blockBitmapLba, sb.blockBitmapSects, blockBitmap.bits[..])
      ensures OnlyBitmapsChanged(sb, old(disk), disk) && disk[sb.inodeBitmapLba] == old(disk)[sb.inodeBitmapLba]
    {
      ghost var bytes := blockBitmap.bits[..];
      blockBitmap.Set(lba - sb.dataStartLba, false);
      ByteChanged(disk, sb.blockBitmapLba, sb.blockBitmapSects, bytes, blockBitmap.bits[..], lba - sb.dataStartLba);
      BlockBitmapSync(lba - sb.dataStartLba);
    }

    /** The same, for the sector that a pointer of an inode names. */
    method FreeFor(lba: u32, ghost ino: nat, ghost pos: nat)
      requires Core()
      requires ino in table && pos < POINTERS && lba == table[ino].Ptr(pos) != 0
      modifies this, blockBitmap.bits
      ensures Core() && Revoked(sb, old(State()), State(), ino, pos)
      ensures FreeBlocks(sb, blockBitmap.All()) == FreeBlocks(sb, old(blockBitmap.All())) + 1
    {
      hide Revoked, Owned, FreeBlocks, BitsOf;
      ghost var img := State();
      OwnedShaped(sb, img);
      PtrOwned(sb, img, ino, pos);
      FreeBlock(lba);
      FreeBlocksUpdate(sb, img.bits, lba - sb.dataStartLba, false);
      RevokeStep(sb, img, ino, pos, disk);
      table := table[ino := table[ino].WithPtr(pos, 0)];
      owner := owner - {lba};
      assert State() == Revoke(sb, img, ino, pos).(disk := disk);
    }

    /** inode_open when the inode is not among the open ones: it is read from the inode table. */
    method InodeOpen(inodeNo: nat) returns (inode: Inode)
      requires Valid() && inodeNo in table
      ensures fresh(inode)
      ensures inode.iNo == inodeNo && inode.Shows(table[inodeNo])
      ensures inode.iOpenCnt == 1 && !inode.writeDeny
    {
      ghost var node := table[inodeNo];
      var off := LocateOffset(inodeNo);
      var inodeBuf := Window(disk, sb, inodeNo);
      var rec := Decode(inodeBuf[off..off + INODE_SIZE]);
      DecodeEncode(InodeRec(inodeNo, node.size, node.sectors));
      inode := new Inode(rec);
    }

    /** Read-modify-write of the one or two sectors that hold an inode's record. */
    method WriteRecord(ino: nat, rec: seq<byte>)
      requires WellFormed(sb) && sb.dataStartLba <= |disk|
      requires ino < MAX_FILES_PER_PART && |rec| == INODE_SIZE
      modifies this`disk
      ensures disk == PutRecord(old(disk), sb, ino, rec)
    {
      var lba, secCnt := LocateLba(sb, ino), SectorCount(ino);
      WindowInTable(sb, ino);
      var inodeBuf := Splice(Window(disk, sb, ino), LocateOffset(ino), rec);
      DiskWrite(lba, inodeBuf[..SECTOR_SIZE]);
      if secCnt == 2 {
        DiskWrite(lba + 1, inodeBuf[SECTOR_SIZE..]);
      }
    }

    /** inode_sync */
    method InodeSync(inode: Inode)
      requires Core() && inode.iNo in table && inode.Shows(table[inode.iNo])
      modifies this`disk
      ensures Core()
      ensures OthersUntouched(sb, old(State()), State(), inode.iNo)
      ensures TableLoaded(old(disk), table[inode.iNo]) ==> OnDisk(sb, disk, inode.iNo, table[inode.iNo])
      ensures forall b :: 0 <= b < BLOCKS ==>
                View(disk, table[inode.iNo], b) == View(old(disk), table[inode.iNo], b)
    {
      hide Owned, BitsOf, Untouched, View, OnDisk, TableLoaded, PutRecord, Encode, Record, Window;
      ghost var img := State();
      OwnedShaped(sb, img);
      SyncOwned(sb, img, inode.iNo);
      WriteRecord(inode.iNo, Encode(InodeRec(inode.iNo, inode.iSize, inode.iSectors)));
    }
  }
}
