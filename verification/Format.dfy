/** partition_format and mount_partition of fs/fs.c: the state every run of the file system starts from. */
module Format {
  import opened Words
  import opened Bitmaps
  import opened Layout
  import opened InodeTable
  import opened BlockMap
  import opened Volumes
  import opened DirEntries
  import opened Directories
  import opened NewDirs

  /** disk_write of several sectors */
  function WriteSectors(disk: seq<Sector>, lba: nat, bufs: seq<Sector>): (d: seq<Sector>)
    requires lba + |bufs| <= |disk|
    ensures |d| == |disk|
    ensures forall l :: 0 <= l < |disk| ==> d[l] == if lba <= l < lba + |bufs| then bufs[l - lba] else disk[l]
  {
    Splice(disk, lba, bufs)
  }

  /** n zero sectors, but for the first */
  function Buffer(first: Sector, n: nat): (r: seq<Sector>)
    requires n > 0
    ensures |r| == n
    ensures forall k :: 0 <= k < n ==> r[k] == if k == 0 then first else Zeros()
  {
    [first] + seq(n - 1, _ => Zeros())
  }

  /** A sector of zeros in which byte 0 has been or-ed with 1. */
  function OneBit(): Sector {
    Zeros()[0 := 1]
  }

  /** The root inode as format writes it: two entries in the first data sector. */
  function RootNode(sb: SuperBlock): (n: Node)
    requires WellFormed(sb)
    ensures n.Ok()
  {
    DirNode(sb.dataStartLba)
  }

  /** The first sector of the inode table: record 0 and zeros. */
  function TableSector(sb: SuperBlock): Sector
    requires WellFormed(sb)
  {
    Splice(Zeros(), 0, Encode(InodeRec(0, 2 * DIR_ENTRY_SIZE, RootNode(sb).sectors)))
  }

  const FS_MAGIC: u32 := 0x2022_0221

  /** `struct super_block`, with what the model keeps as constants, in a sector */
  function SuperSector(sb: SuperBlock): Sector {
    Pack([FS_MAGIC, sb.secCnt, MAX_FILES_PER_PART, sb.partLbaBase, sb.blockBitmapLba, sb.blockBitmapSects, sb.inodeBitmapLba,
          sb.inodeBitmapSects, sb.inodeTableLba, sb.inodeTableSects, sb.dataStartLba, 0, DIR_ENTRY_SIZE] + seq(115, _ => 0))
  }

  /** The fields of a super block read from the disk */
  function LoadSuper(s: Sector): SuperBlock {
    SuperBlock(WordAt(s, 4), WordAt(s, 12), WordAt(s, 16), WordAt(s, 20), WordAt(s, 24), WordAt(s, 28), WordAt(s, 32),
               WordAt(s, 36), WordAt(s, 40))
  }

  /** A super block written and read back is the same one, and its fields are where `struct super_block` has them. */
  lemma LoadSuperSector(sb: SuperBlock)
    ensures LoadSuper(SuperSector(sb)) == sb && WordAt(SuperSector(sb), 0) == FS_MAGIC
    ensures var s := SuperSector(sb);
            && WordAt(s, 4) == sb.secCnt && WordAt(s, 8) == MAX_FILES_PER_PART && WordAt(s, 12) == sb.partLbaBase
            && WordAt(s, 16) == sb.blockBitmapLba && WordAt(s, 20) == sb.blockBitmapSects
            && WordAt(s, 24) == sb.inodeBitmapLba && WordAt(s, 28) == sb.inodeBitmapSects
            && WordAt(s, 32) == sb.inodeTableLba && WordAt(s, 36) == sb.inodeTableSects
            && WordAt(s, 40) == sb.dataStartLba && WordAt(s, 44) == 0 && WordAt(s, 48) == DIR_ENTRY_SIZE
  {
    hide WordAt;
    var ws := [FS_MAGIC, sb.secCnt, MAX_FILES_PER_PART, sb.partLbaBase, sb.blockBitmapLba, sb.blockBitmapSects, sb.inodeBitmapLba,
               sb.inodeBitmapSects, sb.inodeTableLba, sb.inodeTableSects, sb.dataStartLba, 0, DIR_ENTRY_SIZE] + seq(115, _ => 0);
    forall i: nat | i < 13
      ensures WordAt(Pack(ws), 4 * i) == ws[i]
    {
      WordAtPack(ws, i);
    }
    assert WordAt(Pack(ws), 4 * 0) == ws[0] && WordAt(Pack(ws), 4 * 1) == ws[1] && WordAt(Pack(ws), 4 * 3) == ws[3];
    assert WordAt(Pack(ws), 4 * 4) == ws[4] && WordAt(Pack(ws), 4 * 5) == ws[5] && WordAt(Pack(ws), 4 * 6) == ws[6];
    assert WordAt(Pack(ws), 4 * 7) == ws[7] && WordAt(Pack(ws), 4 * 8) == ws[8] && WordAt(Pack(ws), 4 * 9) == ws[9];
    assert WordAt(Pack(ws), 4 * 10) == ws[10] && WordAt(Pack(ws), 4 * 2) == ws[2];
    assert WordAt(Pack(ws), 4 * 11) == ws[11] && WordAt(Pack(ws), 4 * 12) == ws[12];
  }

  /** partition_format, after the layout has been computed. */
  method PartitionFormat(disk: seq<Sector>, sb: SuperBlock, superSector: Sector) returns (d: seq<Sector>)
    requires WellFormed(sb) && sb.partLbaBase + sb.secCnt <= |disk|
    ensures |d| == |disk| && At(d, sb.partLbaBase + 1) == superSector
    ensures forall l :: sb.blockBitmapLba <= l < sb.inodeBitmapLba ==>
              d[l] == if l == sb.blockBitmapLba then OneBit() else Zeros()
    ensures At(d, sb.inodeBitmapLba) == OneBit()
    ensures At(d, sb.inodeTableLba) == TableSector(sb)
    ensures At(d, sb.dataStartLba) == DirSector(0, 0)
    ensures forall l :: 0 <= l < |d| && !(sb.partLbaBase < l <= sb.dataStartLba) ==> d[l] == disk[l]
  {
    d := WriteSectors(disk, sb.partLbaBase + 1, [superSector]);
    d := WriteSectors(d, sb.blockBitmapLba, Buffer(OneBit(), sb.blockBitmapSects));
    d := WriteSectors(d, sb.inodeBitmapLba, Buffer(OneBit(), sb.inodeBitmapSects));
    d := WriteSectors(d, sb.inodeTableLba, Buffer(TableSector(sb), sb.inodeTableSects));
    d := WriteSectors(d, sb.dataStartLba, [DirSector(0, 0)]);
  }

  lemma OneBitBits()
    ensures forall i :: 0 <= i < 8 * SECTOR_SIZE ==> BitsOf(OneBit())[i] == (i == 0)
  {
    forall i | 0 <= i < 8 * SECTOR_SIZE
      ensures BitsOf(OneBit())[i] == (i == 0)
    {
      if i / 8 == 0 {
        BitOfPut(0, 0, true, i % 8);
        BitOfZero(i % 8);
        assert PutBit(0, 0, true) == 1;
      } else {
        BitOfZero(i % 8);
      }
    }
  }

  /** The bits of a bitmap whose first sector is OneBit and whose other sectors are zeros. */
  lemma BitmapBits(bytes: seq<byte>, sects: nat)
    requires sects > 0 && |bytes| == SECTOR_SIZE * sects
    requires forall s :: 0 <= s < sects ==> BitmapSector(bytes, s) == if s == 0 then OneBit() else Zeros()
    ensures forall i :: 0 <= i < 8 * |bytes| ==> BitsOf(bytes)[i] == (i == 0)
  {
    forall k | 0 <= k < |bytes|
      ensures bytes[k] == if k == 0 then 1 else 0
    {
      var s, o := k / SECTOR_SIZE, k % SECTOR_SIZE;
      assert k == SECTOR_SIZE * s + o;
      assert BitmapSector(bytes, s)[o] == bytes[k];
    }
    forall i | 0 <= i < 8 * |bytes|
      ensures BitsOf(bytes)[i] == (i == 0)
    {
      if i / 8 == 0 {
        BitOfPut(0, 0, true, i % 8);
        BitOfZero(i % 8);
        assert PutBit(0, 0, true) == 1;
      } else {
        BitOfZero(i % 8);
      }
    }
  }

  /** A freshly formatted partition of at least 613 sectors, mounted with the super block that is read back from it,
      satisfies the invariant, its only inode is the root directory, and the root directory holds "." and "..". */
  method FormatAndMount(disk: seq<Sector>, startLba: u32, sectorCnt: u32) returns (vol: Volume)
    requires sectorCnt >= 613 && startLba + sectorCnt < 0x1_0000_0000 - 0x1000
    requires startLba + sectorCnt <= |disk| <= 0x1_0000_0000
    ensures fresh(vol) && vol.sb == FormatLayout(startLba, sectorCnt) && vol.Valid()
    ensures WellFormed(vol.sb) && vol.table == map[0 := RootNode(vol.sb)]
    ensures DirOk(vol.disk, RootNode(vol.sb))
    ensures LiveEntries(Slots(vol.disk, RootNode(vol.sb))) == [DotEntry(0), DotDotEntry(0)]
    ensures Slots(vol.disk, RootNode(vol.sb))[0] == DotEntry(0) && Slots(vol.disk, RootNode(vol.sb))[1] == DotDotEntry(0)
  {
    hide Encode, RootNode, BitsOf, Slots, DotEntry, DotDotEntry, DirSector, TableSector, OneBit, SuperSector, LoadSuper, FormatLayout;
    FormatLayoutWellFormed(startLba, sectorCnt);
    LayoutOfPartition(startLba, sectorCnt);
    var sb := FormatLayout(startLba, sectorCnt);
    LoadSuperSector(sb);
    var d := PartitionFormat(disk, sb, SuperSector(sb));
    var mounted := LoadSuper(At(d, startLba + 1));
    vol := new Volume(mounted, d, map[0 := RootNode(sb)], map[sb.dataStartLba := Owner(0, 0)]);
    FormattedOwned(vol);
    FormattedOnDisk(sb, d);
    FormattedRoot(d, sb);
  }

  lemma LayoutOfPartition(startLba: u32, sectorCnt: u32)
    ensures FormatLayout(startLba, sectorCnt).partLbaBase == startLba && FormatLayout(startLba, sectorCnt).secCnt == sectorCnt
  {
  }

  lemma FormattedOwned(vol: Volume)
    requires vol.Shape() && WellFormed(vol.sb) && vol.sb.partLbaBase + vol.sb.secCnt <= |vol.disk| <= 0x1_0000_0000
    requires vol.table == map[0 := RootNode(vol.sb)] && vol.owner == map[vol.sb.dataStartLba := Owner(0, 0)]
    requires BitmapOnDisk(vol.disk, vol.sb.blockBitmapLba, vol.sb.blockBitmapSects, vol.blockBitmap.bits[..])
    requires forall l :: vol.sb.blockBitmapLba <= l < vol.sb.inodeBitmapLba ==>
               vol.disk[l] == if l == vol.sb.blockBitmapLba then OneBit() else Zeros()
    requires At(vol.disk, vol.sb.inodeBitmapLba) == OneBit() == vol.inodeBitmap.bits[..] == vol.ledger.synced
    requires vol.ledger.pending == {}
    ensures vol.Core()
  {
    hide BitsOf, OneBit;
    forall s | 0 <= s < vol.sb.blockBitmapSects
      ensures BitmapSector(vol.blockBitmap.bits[..], s) == if s == 0 then OneBit() else Zeros()
    {
      assert BitmapSector(vol.blockBitmap.bits[..], s) == At(vol.disk, vol.sb.blockBitmapLba + s);
      assert vol.disk[vol.sb.blockBitmapLba + s] == At(vol.disk, vol.sb.blockBitmapLba + s);
    }
    BitmapBits(vol.blockBitmap.bits[..], vol.sb.blockBitmapSects);
    OneBitBits();
    assert RootNode(vol.sb).Ptr(0) == vol.sb.dataStartLba;
  }

  lemma FormattedOnDisk(sb: SuperBlock, d: seq<Sector>)
    requires WellFormed(sb) && At(d, sb.inodeTableLba) == TableSector(sb)
    ensures OnDisk(sb, d, 0, RootNode(sb))
  {
    var w := Window(d, sb, 0);
    assert LocateOffset(0) == 0 && LocateLba(sb, 0) == sb.inodeTableLba && !CrossSector(0);
    assert TableSector(sb)[0..INODE_SIZE] == Encode(InodeRec(0, 2 * DIR_ENTRY_SIZE, RootNode(sb).sectors));
  }

  lemma FormattedRoot(d: seq<Sector>, sb: SuperBlock)
    requires WellFormed(sb) && At(d, sb.dataStartLba) == DirSector(0, 0)
    ensures DirOk(d, RootNode(sb))
    ensures LiveEntries(Slots(d, RootNode(sb))) == [DotEntry(0), DotDotEntry(0)]
    ensures Slots(d, RootNode(sb))[0] == DotEntry(0) && Slots(d, RootNode(sb))[1] == DotDotEntry(0)
  {
    hide DotEntry, DotDotEntry, DirSector, Slots, DirOk;
    NewDirOk(d, sb.dataStartLba, 0, 0);
  }
}
