/** fs/inode.c: 76-byte inode records packed without padding into the sectors of the inode table. */
module InodeTable {
  import opened Words
  import opened Layout

  /** Sector l of the disk. What a drive answers for a sector it does not have is not modelled; zeros stand for it. */
  function At(disk: seq<Sector>, l: int): Sector {
    if 0 <= l < |disk| then disk[l] else Zeros()
  }

  /** inode_locate: the sector in which record ino starts. */
  function LocateLba(sb: SuperBlock, ino: nat): int {
    sb.inodeTableLba + ino * INODE_SIZE / SECTOR_SIZE
  }

  /** inode_locate: where in that sector it starts. */
  function LocateOffset(ino: nat): (r: nat)
    ensures r < SECTOR_SIZE
  {
    ino * INODE_SIZE % SECTOR_SIZE
  }

  predicate CrossSector(ino: nat) {
    LocateOffset(ino) + INODE_SIZE > SECTOR_SIZE
  }

  function SectorCount(ino: nat): nat {
    if CrossSector(ino) then 2 else 1
  }

  /** The one or two sectors that inode_open and inode_sync read for record ino. */
  function Window(disk: seq<Sector>, sb: SuperBlock, ino: nat): (bs: seq<byte>)
    ensures |bs| == SECTOR_SIZE * SectorCount(ino)
  {
    var lba := LocateLba(sb, ino);
    if CrossSector(ino) then At(disk, lba) + At(disk, lba + 1) else At(disk, lba)
  }

  /** The bytes of record ino. */
  function Record(disk: seq<Sector>, sb: SuperBlock, ino: nat): (bs: seq<byte>)
    ensures |bs| == INODE_SIZE
  {
    var off := LocateOffset(ino);
    Window(disk, sb, ino)[off..off + INODE_SIZE]
  }

  /** The persistent part of `struct inode`. */
  datatype InodeRec = InodeRec(iNo: u32, iSize: u32, iSectors: seq<u32>)

  /** The record inode_sync prepares: open count, write_deny and list links are cleared. */
  function Encode(r: InodeRec): (bs: seq<byte>)
    requires |r.iSectors| == 13
    ensures |bs| == INODE_SIZE
  {
    Pack([r.iNo, r.iSize, 0, 0] + r.iSectors + [0, 0])
  }

  /** The persistent fields of the `struct inode` that inode_open copies from the disk. */
  function Decode(bs: seq<byte>): (r: InodeRec)
    requires |bs| == INODE_SIZE
    ensures |r.iSectors| == 13
  {
    InodeRec(WordAt(bs, 0), WordAt(bs, 4), Unpack(bs)[4..17])
  }

  lemma DecodeEncode(r: InodeRec)
    requires |r.iSectors| == 13
    ensures Decode(Encode(r)) == r
  {
    var ws := [r.iNo, r.iSize, 0, 0] + r.iSectors + [0, 0];
    WordAtPack(ws, 0);
    WordAtPack(ws, 1);
    UnpackPack(ws);
    assert ws[4..17] == r.iSectors;
  }

  /** Where the fields of an inode are in its record: `struct inode`, whose flag write_deny takes a word. */
  lemma RecordFields(r: InodeRec)
    requires |r.iSectors| == 13
    ensures WordAt(Encode(r), 0) == r.iNo && WordAt(Encode(r), 4) == r.iSize
    ensures forall k: nat :: k < 13 ==> WordAt(Encode(r), 16 + 4 * k) == r.iSectors[k]
  {
    var ws := [r.iNo, r.iSize, 0, 0] + r.iSectors + [0, 0];
    WordAtPack(ws, 0);
    WordAtPack(ws, 1);
    forall k: nat | k < 13
      ensures WordAt(Encode(r), 16 + 4 * k) == r.iSectors[k]
    {
      WordAtPack(ws, 4 + k);
      assert 4 * (4 + k) == 16 + 4 * k;
    }
  }

  /** The position of a record in the byte stream of the table. */
  lemma Located(sb: SuperBlock, ino: nat)
    ensures (LocateLba(sb, ino) - sb.inodeTableLba) * SECTOR_SIZE + LocateOffset(ino) == ino * INODE_SIZE
  {
  }

  /** No record reaches past the 608 sectors of the table, and the last one ends exactly there. */
  lemma WindowInTable(sb: SuperBlock, ino: nat)
    requires ino < MAX_FILES_PER_PART && WellFormed(sb)
    ensures sb.inodeTableLba <= LocateLba(sb, ino)
    ensures LocateLba(sb, ino) + SectorCount(ino) <= sb.inodeTableLba + INODE_TABLE_SECTS
  {
  }

  /** Byte x of the table, counted from its start. */
  function TableByte(disk: seq<Sector>, sb: SuperBlock, x: nat): byte {
    At(disk, sb.inodeTableLba + x / SECTOR_SIZE)[x % SECTOR_SIZE]
  }

  lemma RecordBytes(disk: seq<Sector>, sb: SuperBlock, ino: nat, k: nat)
    requires k < INODE_SIZE
    ensures Record(disk, sb, ino)[k] == TableByte(disk, sb, ino * INODE_SIZE + k)
  {
    var off, lba := LocateOffset(ino), LocateLba(sb, ino);
    var x := ino * INODE_SIZE + k;
    Located(sb, ino);
    if off + k < SECTOR_SIZE {
      assert x / SECTOR_SIZE == lba - sb.inodeTableLba && x % SECTOR_SIZE == off + k;
    } else {
      assert x / SECTOR_SIZE == lba + 1 - sb.inodeTableLba && x % SECTOR_SIZE == off + k - SECTOR_SIZE;
    }
  }

  /** The disk after the sectors of record ino are written back with new record bytes. */
  function PutRecord(disk: seq<Sector>, sb: SuperBlock, ino: nat, rec: seq<byte>): (d: seq<Sector>)
    requires |rec| == INODE_SIZE && ino < MAX_FILES_PER_PART
    requires WellFormed(sb) && sb.dataStartLba <= |disk|
    ensures |d| == |disk|
    ensures forall l :: 0 <= l < |disk| && !(sb.inodeTableLba <= l < sb.dataStartLba) ==> d[l] == disk[l]
  {
    var lba := LocateLba(sb, ino);
    WindowInTable(sb, ino);
    var w := Splice(Window(disk, sb, ino), LocateOffset(ino), rec);
    var d := disk[lba := w[..SECTOR_SIZE]];
    if CrossSector(ino) then d[lba + 1 := w[SECTOR_SIZE..]] else d
  }

  lemma PutRecordSectors(disk: seq<Sector>, sb: SuperBlock, ino: nat, rec: seq<byte>, l: nat)
    requires |rec| == INODE_SIZE && ino < MAX_FILES_PER_PART
    requires WellFormed(sb) && sb.dataStartLba <= |disk|
    requires l < sb.inodeTableLba + INODE_TABLE_SECTS
    ensures l < |disk|
    ensures var w := Splice(Window(disk, sb, ino), LocateOffset(ino), rec);
            var lba := LocateLba(sb, ino);
            PutRecord(disk, sb, ino, rec)[l] ==
            if l == lba then w[..SECTOR_SIZE]
            else if l == lba + 1 && CrossSector(ino) then w[SECTOR_SIZE..]
            else disk[l]
    ensures sb.dataStartLba == sb.inodeTableLba + INODE_TABLE_SECTS
  {
    WindowInTable(sb, ino);
  }

  lemma PutRecordByte(disk: seq<Sector>, sb: SuperBlock, ino: nat, rec: seq<byte>, x: nat)
    requires |rec| == INODE_SIZE && ino < MAX_FILES_PER_PART
    requires WellFormed(sb) && sb.dataStartLba <= |disk|
    requires x < INODE_TABLE_SECTS * SECTOR_SIZE
    ensures TableByte(PutRecord(disk, sb, ino, rec), sb, x) ==
            if ino * INODE_SIZE <= x < ino * INODE_SIZE + INODE_SIZE then rec[x - ino * INODE_SIZE]
            else TableByte(disk, sb, x)
  {
    hide LocateOffset, LocateLba, PutRecord, WellFormed, Splice;
    var off, lba := LocateOffset(ino), LocateLba(sb, ino);
    var r := ino * INODE_SIZE;
    Located(sb, ino);
    WindowInTable(sb, ino);
    var l := sb.inodeTableLba + x / SECTOR_SIZE;
    var o := x % SECTOR_SIZE;
    assert x == (l - sb.inodeTableLba) * SECTOR_SIZE + o;
    PutRecordSectors(disk, sb, ino, rec, l);
    var w := Splice(Window(disk, sb, ino), off, rec);
    if l == lba {
      assert x - r == o - off;
    } else if l == lba + 1 && CrossSector(ino) {
      assert x - r == o + SECTOR_SIZE - off;
      assert Window(disk, sb, ino)[SECTOR_SIZE + o] == At(disk, lba + 1)[o];
    } else if l < lba {
      assert x < r;
    } else {
      assert x >= r + INODE_SIZE;
    }
  }

  /** d's inode table is disk's with the bytes of record ino replaced by rec. */
  ghost predicate TablePatched(disk: seq<Sector>, d: seq<Sector>, sb: SuperBlock, ino: nat, rec: seq<byte>)
    requires |rec| == INODE_SIZE
  {
    forall x: nat :: x < INODE_TABLE_SECTS * SECTOR_SIZE ==>
      TableByte(d, sb, x) == if ino * INODE_SIZE <= x < ino * INODE_SIZE + INODE_SIZE then rec[x - ino * INODE_SIZE]
                             else TableByte(disk, sb, x)
  }

  lemma RecordOfPatched(disk: seq<Sector>, d: seq<Sector>, sb: SuperBlock, ino: nat, rec: seq<byte>, j: nat)
    requires |rec| == INODE_SIZE && ino < MAX_FILES_PER_PART && j < MAX_FILES_PER_PART
    requires TablePatched(disk, d, sb, ino, rec)
    ensures Record(d, sb, j) == if j == ino then rec else Record(disk, sb, j)
  {
    var r, r' := Record(disk, sb, j), Record(d, sb, j);
    forall k | 0 <= k < INODE_SIZE
      ensures r'[k] == if j == ino then rec[k] else r[k]
    {
      RecordBytes(d, sb, j, k);
      RecordBytes(disk, sb, j, k);
      var x := j * INODE_SIZE + k;
      if j < ino {
        assert x < ino * INODE_SIZE;
      } else if j > ino {
        assert x >= ino * INODE_SIZE + INODE_SIZE;
      }
    }
  }

  /** Writing record ino and reading any record back: record ino has the new bytes, every other its old ones,
      also where two records share a sector or a record straddles two. */
  lemma RecordAfterPut(disk: seq<Sector>, sb: SuperBlock, ino: nat, rec: seq<byte>, j: nat)
    requires |rec| == INODE_SIZE && ino < MAX_FILES_PER_PART && j < MAX_FILES_PER_PART
    requires WellFormed(sb) && sb.dataStartLba <= |disk|
    ensures Record(PutRecord(disk, sb, ino, rec), sb, j) == if j == ino then rec else Record(disk, sb, j)
  {
    var d := PutRecord(disk, sb, ino, rec);
    forall x: nat | x < INODE_TABLE_SECTS * SECTOR_SIZE
      ensures TableByte(d, sb, x) ==
              if ino * INODE_SIZE <= x < ino * INODE_SIZE + INODE_SIZE then rec[x - ino * INODE_SIZE]
              else TableByte(disk, sb, x)
    {
      PutRecordByte(disk, sb, ino, rec, x);
    }
    RecordOfPatched(disk, d, sb, ino, rec, j);
  }

  /** Round trip and frame of the inode table: after syncing record r, opening any inode uncached gives r's
      persistent fields or what was there before. */
  lemma OpenAfterSync(disk: seq<Sector>, sb: SuperBlock, r: InodeRec, j: nat)
    requires |r.iSectors| == 13 && r.iNo < MAX_FILES_PER_PART && j < MAX_FILES_PER_PART
    requires WellFormed(sb) && sb.dataStartLba <= |disk|
    ensures Decode(Record(PutRecord(disk, sb, r.iNo, Encode(r)), sb, j)) ==
            if j == r.iNo then r else Decode(Record(disk, sb, j))
  {
    RecordAfterPut(disk, sb, r.iNo, Encode(r), j);
    DecodeEncode(r);
  }

  /** Sectors outside the table do not matter to a record. */
  lemma RecordFrame(disk: seq<Sector>, disk': seq<Sector>, sb: SuperBlock, j: nat)
    requires WellFormed(sb) && j < MAX_FILES_PER_PART
    requires sb.dataStartLba <= |disk| == |disk'|
    requires forall l :: sb.inodeTableLba <= l < sb.dataStartLba ==> disk'[l] == disk[l]
    ensures Record(disk', sb, j) == Record(disk, sb, j)
  {
    WindowInTable(sb, j);
  }
}
