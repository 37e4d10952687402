/** fs/file.c: reading and writing a file through its block map. */
module FileIo {
  import opened Words
  import opened Bitmaps
  import opened Layout
  import opened InodeTable
  import opened BlockMap
  import opened Volumes

  /** `struct file` */
  class File {
    var fdPos: u32
    var fdFlag: u32
    var fdInode: Inode

    constructor (inode: Inode)
      ensures fdInode == inode && fdPos == 0
    {
      fdPos, fdFlag, fdInode := 0, 0, inode;
    }
  }

  /** An array of the size of all_blocks or of a sector buffer, apart from the bitmaps. */
  ghost predicate Scratch(vol: Volume, ioBuf: array<byte>) {
    ioBuf != vol.blockBitmap.bits && ioBuf != vol.inodeBitmap.bits && ioBuf.Length == SECTOR_SIZE
  }

  /** What file_write keeps true while it works on a file: the inode in memory and all_blocks show the file's block map.
      Once the indirect table has been loaded or allocated, its sector is either up to date or still to be written for
      the first time. */
  ghost predicate Working(vol: Volume, inode: Inode, allBlocks: seq<u32>, hasTable: bool)
    reads vol, vol.blockBitmap.bits, vol.inodeBitmap.bits, vol.ledger, inode
  {
    && vol.Core()
    && inode.iNo in vol.table
    && inode.Shows(vol.table[inode.iNo])
    && |allBlocks| == BLOCKS
    && allBlocks[..12] == inode.iSectors[..12]
    && (if hasTable then
          && inode.iSectors[12] != 0
          && allBlocks[12..] == vol.table[inode.iNo].entries
          && (TableLoaded(vol.disk, vol.table[inode.iNo]) || vol.table[inode.iNo].entries == seq(ENTRIES, _ => 0))
        else TableLoaded(vol.disk, vol.table[inode.iNo]))
  }

  /** Block b of inode ino has a sector now; nothing else about the file, and no other file, has changed. */
  ghost predicate BlockReady(sb: SuperBlock, img: Img, img': Img, ino: nat, b: nat)
    requires Shaped(sb, img) && Shaped(sb, img') && ino in img.table && b < BLOCKS
  {
    && OthersUntouched(sb, img, img', ino)
    && var n, n' := img.table[ino], img'.table[ino];
       && n'.size == n.size
       && n'.sectors[12] == n.sectors[12]
       && n'.BlockPtr(b) != 0
       && (forall c :: 0 <= c < BLOCKS && c != b ==> n'.BlockPtr(c) == n.BlockPtr(c))
       && (forall c :: 0 <= c < BLOCKS && c != b ==> View(img'.disk, n', c) == View(img.disk, n, c))
  }

  lemma BlockReadyTransitive(sb: SuperBlock, a: Img, b: Img, c: Img, ino: nat, idx: nat)
    requires Shaped(sb, a) && Shaped(sb, b) && Shaped(sb, c) && ino in a.table && idx < BLOCKS
    requires BlockReady(sb, a, b, ino, idx) && BlockReady(sb, b, c, ino, idx)
    ensures BlockReady(sb, a, c, ino, idx)
  {
    hide Untouched, View;
    OthersUntouchedTransitive(sb, a, b, c, ino);
  }

  lemma GrantedReady(sb: SuperBlock, img: Img, img': Img, ino: nat, b: nat, l: u32)
    requires Owned(sb, img) && ino in img.table && b < BLOCKS
    requires Granted(sb, img, img', ino, PosOf(b), l)
    ensures Shaped(sb, img') && BlockReady(sb, img, img', ino, b)
    ensures l != 0 && img'.table[ino] == img.table[ino].WithPtr(PosOf(b), l)
    ensures b < 12 && TableLoaded(img.disk, img.table[ino]) ==> TableLoaded(img'.disk, img'.table[ino])
  {
    var n, n' := img.table[ino], img'.table[ino];
    assert n'.Ptr(12) == n.Ptr(12);
    forall c | 0 <= c < BLOCKS && c != b
      ensures n'.BlockPtr(c) == n.BlockPtr(c)
      ensures View(img'.disk, n', c) == View(img.disk, n, c)
    {
      assert PosOf(c) != PosOf(b);
    }
  }

  method MemSet0(buf: array<byte>)
    modifies buf
    ensures buf[..] == seq(buf.Length, _ => 0)
  {
    for k := 0 to buf.Length
      invariant forall j :: 0 <= j < k ==> buf[j] == 0
    {
      buf[k] := 0;
    }
  }

  /** disk_read of one sector */
  method DiskRead(vol: Volume, lba: nat, buf: array<byte>)
    requires buf.Length == SECTOR_SIZE
    modifies buf
    ensures buf[..] == At(vol.disk, lba)
  {
    var s := At(vol.disk, lba);
    for k := 0 to SECTOR_SIZE
      invariant forall j :: 0 <= j < k ==> buf[j] == s[j]
    {
      buf[k] := s[k];
    }
  }

  /** memcpy(buf + at, src, |src|) */
  method MemCpy(buf: array<byte>, at: nat, src: seq<byte>)
    requires at + |src| <= buf.Length
    modifies buf
    ensures buf[..] == Splice(old(buf[..]), at, src)
  {
    for k := 0 to |src|
      invariant forall j :: 0 <= j < buf.Length ==> buf[j] == if at <= j < at + k then src[j - at] else old(buf[j])
    {
      buf[at + k] := src[k];
    }
  }

  /** `disk_write(i_sectors[12], all_blocks + 12, 1)` */
  method WriteIndirectTable(vol: Volume, inode: Inode, entries: seq<u32>)
    requires vol.Core() && inode.iNo in vol.table && inode.Shows(vol.table[inode.iNo])
    requires inode.iSectors[12] != 0 && entries == vol.table[inode.iNo].entries
    modifies vol`disk
    ensures vol.Core()
    ensures OthersUntouched(vol.sb, old(vol.State()), vol.State(), inode.iNo)
    ensures TableLoaded(vol.disk, vol.table[inode.iNo])
    ensures forall b :: 0 <= b < BLOCKS ==>
              View(vol.disk, vol.table[inode.iNo], b) == View(old(vol.disk), vol.table[inode.iNo], b)
  {
    hide Owned, BitsOf, Untouched, View, Record, Pack;
    ghost var img, ino := vol.State(), inode.iNo;
    assert img.table[ino].Ptr(12) == inode.iSectors[12];
    OwnedShaped(vol.sb, img);
    PtrOwned(vol.sb, img, ino, 12);
    WriteOwned(vol.sb, img, ino, 12, Pack(entries));
    vol.DiskWrite(inode.iSectors[12], Pack(entries));
    assert vol.State() == img.(disk := img.disk[img.table[ino].Ptr(12) := Pack(entries)]);
  }

  /** The branch of load_or_alloc_inode_block that finds no sector. */
  method AllocInodeBlock(vol: Volume, inode: Inode, blockIdx: nat, allBlocks: array<u32>, ghost hasTable: bool)
    requires Working(vol, inode, allBlocks[..], hasTable)
    requires blockIdx < BLOCKS && (blockIdx >= 12 ==> hasTable)
    requires allBlocks[blockIdx] == 0 && FreeBlocks(vol.sb, vol.blockBitmap.All()) > 0
    modifies vol, vol.blockBitmap.bits, inode, allBlocks
    ensures Working(vol, inode, allBlocks[..], hasTable)
    ensures inode.iNo == old(inode.iNo)
    ensures BlockReady(vol.sb, old(vol.State()), vol.State(), inode.iNo, blockIdx)
    ensures allBlocks[blockIdx] == vol.table[inode.iNo].BlockPtr(blockIdx)
    ensures blockIdx >= 12 ==> TableLoaded(vol.disk, vol.table[inode.iNo])
    ensures FreeBlocks(vol.sb, vol.blockBitmap.All()) == FreeBlocks(vol.sb, old(vol.blockBitmap.All())) - 1
  {
    hide Owned, Granted, BitsOf, FreeBlocks, Untouched, View;
    ghost var img, ino := vol.State(), inode.iNo;
    OwnedShaped(vol.sb, img);
    assert img.table[ino].BlockPtr(blockIdx) == allBlocks[blockIdx];
    var blockLba := vol.AllocateFor(inode.iNo, PosOf(blockIdx));
    GrantedReady(vol.sb, img, vol.State(), ino, blockIdx, blockLba);
    if blockIdx < 12 {
      inode.iSectors := inode.iSectors[blockIdx := blockLba];
      allBlocks[blockIdx] := blockLba;
      assert allBlocks[12..] == old(allBlocks[12..]);
    } else {
      allBlocks[blockIdx] := blockLba;
      assert allBlocks[..12] == old(allBlocks[..12]);
      ghost var mid := vol.State();
      WriteIndirectTable(vol, inode, allBlocks[12..]);
      OwnedShaped(vol.sb, vol.State());
      OthersUntouchedTransitive(vol.sb, img, mid, vol.State(), ino);
    }
  }

  /** load_or_alloc_inode_block */
  method LoadOrAllocInodeBlock(vol: Volume, inode: Inode, blockIdx: nat, allBlocks: array<u32>, ioBuf: array<byte>,
                               ghost hasTable: bool)
    requires Scratch(vol, ioBuf)
    requires Working(vol, inode, allBlocks[..], hasTable)
    requires blockIdx < BLOCKS && (blockIdx >= 12 ==> hasTable)
    requires allBlocks[blockIdx] == 0 ==> FreeBlocks(vol.sb, vol.blockBitmap.All()) > 0
    modifies vol, vol.blockBitmap.bits, inode, allBlocks, ioBuf
    ensures Working(vol, inode, allBlocks[..], hasTable)
    ensures inode.iNo == old(inode.iNo)
    ensures BlockReady(vol.sb, old(vol.State()), vol.State(), inode.iNo, blockIdx)
    ensures ioBuf[..] == View(old(vol.disk), old(vol.table[inode.iNo]), blockIdx)
    ensures allBlocks[blockIdx] == vol.table[inode.iNo].BlockPtr(blockIdx)
    ensures blockIdx >= 12 ==> TableLoaded(vol.disk, vol.table[inode.iNo])
    ensures FreeBlocks(vol.sb, vol.blockBitmap.All()) ==
            FreeBlocks(vol.sb, old(vol.blockBitmap.All())) - (if old(allBlocks[blockIdx]) == 0 then 1 else 0)
  {
    hide Owned, BitsOf, FreeBlocks, Untouched;
    OwnedShaped(vol.sb, vol.State());
    OthersUntouchedReflexive(vol.sb, vol.State(), inode.iNo);
    assert vol.table[inode.iNo].BlockPtr(blockIdx) == allBlocks[blockIdx];
    var blockLba := allBlocks[blockIdx];
    if blockLba == 0 {
      AllocInodeBlock(vol, inode, blockIdx, allBlocks, hasTable);
      MemSet0(ioBuf);
    } else {
      DiskRead(vol, blockLba, ioBuf);
    }
  }

  /** Block b of a file after `buf` is written at byte position pos of the file. */
  function Spliced(v: Sector, b: nat, pos: nat, buf: seq<byte>): Sector {
    seq(SECTOR_SIZE, o requires 0 <= o < SECTOR_SIZE =>
      if pos <= b * SECTOR_SIZE + o < pos + |buf| then buf[b * SECTOR_SIZE + o - pos] else v[o])
  }

  /** disk_write of a block that the file owns */
  method WriteDataBlock(vol: Volume, inode: Inode, blockIdx: nat, allBlocks: seq<u32>, s: Sector, ghost hasTable: bool)
    requires Working(vol, inode, allBlocks, hasTable)
    requires blockIdx < BLOCKS
    requires allBlocks[blockIdx] == vol.table[inode.iNo].BlockPtr(blockIdx) != 0
    modifies vol`disk
    ensures Working(vol, inode, allBlocks, hasTable)
    ensures Shaped(vol.sb, old(vol.State())) && Shaped(vol.sb, vol.State())
    ensures BlockReady(vol.sb, old(vol.State()), vol.State(), inode.iNo, blockIdx)
    ensures View(vol.disk, vol.table[inode.iNo], blockIdx) == s
    ensures TableLoaded(old(vol.disk), vol.table[inode.iNo]) ==> TableLoaded(vol.disk, vol.table[inode.iNo])
  {
    hide Owned, BitsOf, Untouched, View, TableLoaded, Record;
    ghost var img, ino := vol.State(), inode.iNo;
    OwnedShaped(vol.sb, img);
    PtrOwned(vol.sb, img, ino, PosOf(blockIdx));
    WriteOwned(vol.sb, img, ino, PosOf(blockIdx), s);
    vol.DiskWrite(allBlocks[blockIdx], s);
    assert vol.State() == img.(disk := img.disk[img.table[ino].Ptr(PosOf(blockIdx)) := s]);
  }

  /** The three lines file_write repeats for its first, middle and last sector: load or allocate block blockIdx, copy a
      piece of the buffer into it, write it back. */
  method PatchBlock(vol: Volume, inode: Inode, blockIdx: nat, allBlocks: array<u32>, ioBuf: array<byte>,
                    at: nat, src: seq<byte>, ghost hasTable: bool)
    requires Scratch(vol, ioBuf)
    requires Working(vol, inode, allBlocks[..], hasTable)
    requires blockIdx < BLOCKS && (blockIdx >= 12 ==> hasTable)
    requires at + |src| <= SECTOR_SIZE
    requires allBlocks[blockIdx] == 0 ==> FreeBlocks(vol.sb, vol.blockBitmap.All()) > 0
    modifies vol, vol.blockBitmap.bits, inode, allBlocks, ioBuf
    ensures Working(vol, inode, allBlocks[..], hasTable)
    ensures inode.iNo == old(inode.iNo)
    ensures BlockReady(vol.sb, old(vol.State()), vol.State(), inode.iNo, blockIdx)
    ensures View(vol.disk, vol.table[inode.iNo], blockIdx) ==
            Splice(View(old(vol.disk), old(vol.table[inode.iNo]), blockIdx), at, src)
    ensures blockIdx >= 12 ==> TableLoaded(vol.disk, vol.table[inode.iNo])
    ensures FreeBlocks(vol.sb, vol.blockBitmap.All()) ==
            FreeBlocks(vol.sb, old(vol.blockBitmap.All())) - (if old(allBlocks[blockIdx]) == 0 then 1 else 0)
  {
    hide Owned, BitsOf, FreeBlocks, OthersUntouched, View, TableLoaded;
    ghost var img, ino := vol.State(), inode.iNo;
    OwnedShaped(vol.sb, img);
    LoadOrAllocInodeBlock(vol, inode, blockIdx, allBlocks, ioBuf, hasTable);
    MemCpy(ioBuf, at, src);
    ghost var mid := vol.State();
    WriteDataBlock(vol, inode, blockIdx, allBlocks[..], ioBuf[..], hasTable);
    BlockReadyTransitive(vol.sb, img, mid, vol.State(), ino, blockIdx);
  }

  // --- file_write ---

  /** How many of blocks lo .. hi - 1 have no sector yet. */
  ghost function Missing(n: Node, lo: nat, hi: nat): nat
    requires n.Ok() && hi <= BLOCKS
  {
    if hi <= lo then 0 else Missing(n, lo, hi - 1) + if n.BlockPtr(hi - 1) == 0 then 1 else 0
  }

  lemma {:induction false} MissingGrows(n: Node, lo: nat, mid: nat, hi: nat)
    requires n.Ok() && lo <= mid < hi <= BLOCKS
    ensures Missing(n, lo, mid) + (if n.BlockPtr(mid) == 0 then 1 else 0) <= Missing(n, lo, hi)
  {
    if mid < hi - 1 {
      MissingGrows(n, lo, mid, hi - 1);
    }
  }

  /** The sectors that writing cnt bytes at pos takes from the free ones, the indirect table's included. */
  ghost function NeededBlocks(n: Node, pos: nat, cnt: nat): nat
    requires n.Ok() && pos + cnt < MAX_FILE_SIZE
  {
    var endSec := (pos + cnt) / SECTOR_SIZE;
    Missing(n, pos / SECTOR_SIZE, endSec + 1) + if endSec >= 12 && n.sectors[12] == 0 then 1 else 0
  }

  /** file_write's test of the end position, a sum that wraps at 32 bits, lets a write through. */
  predicate GuardPasses(pos: u32, cnt: u32) {
    Wrap(pos + cnt) <= MAX_FILE_SIZE
  }

  /** The writes that it lets through although they end in or after sector 140, one past the block table. */
  predicate GuardMisses(pos: u32, cnt: u32) {
    pos + cnt == MAX_FILE_SIZE || 0x1_0000_0000 <= pos + cnt <= 0x1_0000_0000 + MAX_FILE_SIZE
  }

  lemma GuardMissesIff(pos: u32, cnt: u32)
    ensures GuardPasses(pos, cnt) && (pos + cnt) / SECTOR_SIZE >= BLOCKS <==> GuardMisses(pos, cnt)
    ensures !GuardMisses(pos, cnt) ==> (GuardPasses(pos, cnt) <==> pos + cnt < MAX_FILE_SIZE)
  {
    assert pos + cnt >= 0x1_0000_0000 ==> Wrap(pos + cnt) == pos + cnt - 0x1_0000_0000;
  }

  /** Two such writes: up to exactly 71680; and 2 bytes at the position that sys_lseek sets for an offset of -1, where the
      first sector already is far past the table. */
  lemma GuardMissesTwo()
    ensures GuardPasses(71000, 680) && (71000 + 680) / SECTOR_SIZE == BLOCKS
    ensures GuardPasses(Wrap(-1), 2) && Wrap(-1) / SECTOR_SIZE == 8388607 > BLOCKS
  {
  }

  /** Blocks lo .. idx - 1 of the file have been written; everything else is as it was. */
  ghost predicate Patched(sb: SuperBlock, img0: Img, img: Img, ino: nat, pos: nat, buf: seq<byte>, idx: nat)
    requires Shaped(sb, img0) && Shaped(sb, img) && ino in img0.table && idx <= BLOCKS
  {
    && OthersUntouched(sb, img0, img, ino)
    && var n0, n, lo := img0.table[ino], img.table[ino], pos / SECTOR_SIZE;
       && n.size == n0.size
       && n.sectors[12] == n0.sectors[12]
       && (forall b :: 0 <= b < BLOCKS && !(lo <= b < idx) ==> n.BlockPtr(b) == n0.BlockPtr(b))
       && (forall b :: lo <= b < idx ==> n.BlockPtr(b) != 0)
       && (forall b | 0 <= b < BLOCKS :: View(img.disk, n, b) ==
             if lo <= b < idx then Spliced(View(img0.disk, n0, b), b, pos, buf) else View(img0.disk, n0, b))
       && FreeBlocks(sb, img.bits) == FreeBlocks(sb, img0.bits) - Missing(n0, lo, idx)
  }

  lemma PatchedStep(sb: SuperBlock, img0: Img, img: Img, img': Img, ino: nat, pos: nat, buf: seq<byte>, idx: nat)
    requires Shaped(sb, img0) && Shaped(sb, img) && Shaped(sb, img') && ino in img0.table
    requires pos / SECTOR_SIZE <= idx < BLOCKS
    requires Patched(sb, img0, img, ino, pos, buf, idx)
    requires BlockReady(sb, img, img', ino, idx)
    requires View(img'.disk, img'.table[ino], idx) == Spliced(View(img.disk, img.table[ino], idx), idx, pos, buf)
    requires FreeBlocks(sb, img'.bits) ==
             FreeBlocks(sb, img.bits) - (if img.table[ino].BlockPtr(idx) == 0 then 1 else 0)
    ensures Patched(sb, img0, img', ino, pos, buf, idx + 1)
  {
    hide Untouched, View, FreeBlocks, Spliced;
    OthersUntouchedTransitive(sb, img0, img, img', ino);
  }

  lemma PatchedStart(sb: SuperBlock, img: Img, ino: nat, pos: nat, buf: seq<byte>)
    requires Shaped(sb, img) && ino in img.table && pos < MAX_FILE_SIZE
    ensures Patched(sb, img, img, ino, pos, buf, pos / SECTOR_SIZE)
  {
    OthersUntouchedReflexive(sb, img, ino);
  }

  lemma PatchedFree(sb: SuperBlock, img0: Img, img: Img, ino: nat, pos: nat, buf: seq<byte>, idx: nat, hi: nat)
    requires Shaped(sb, img0) && Shaped(sb, img) && ino in img0.table
    requires pos / SECTOR_SIZE <= idx < hi <= BLOCKS
    requires Patched(sb, img0, img, ino, pos, buf, idx)
    requires FreeBlocks(sb, img0.bits) >= Missing(img0.table[ino], pos / SECTOR_SIZE, hi)
    ensures img0.table[ino].BlockPtr(idx) == 0 ==> FreeBlocks(sb, img.bits) > 0
  {
    MissingGrows(img0.table[ino], pos / SECTOR_SIZE, idx, hi);
  }

  /** Which bytes of the buffer go where in the first, a middle and the last sector. */
  lemma SplicedPiece(v: Sector, b: nat, pos: nat, buf: seq<byte>, at: nat, from: nat, to: nat)
    requires pos / SECTOR_SIZE <= b <= (pos + |buf|) / SECTOR_SIZE
    requires at == (if b == pos / SECTOR_SIZE then pos % SECTOR_SIZE else 0)
    requires from == (if b == pos / SECTOR_SIZE then 0 else b * SECTOR_SIZE - pos)
    requires to == (if b == (pos + |buf|) / SECTOR_SIZE then |buf| else (b + 1) * SECTOR_SIZE - pos)
    ensures from <= to <= |buf| && at + to - from <= SECTOR_SIZE
    ensures Splice(v, at, buf[from..to]) == Spliced(v, b, pos, buf)
  {
    var r := Splice(v, at, buf[from..to]);
    assert b * SECTOR_SIZE + at == pos + from;
    forall o | 0 <= o < SECTOR_SIZE
      ensures r[o] == Spliced(v, b, pos, buf)[o]
    {
      if at <= o < at + (to - from) {
        assert buf[from..to][o - at] == buf[b * SECTOR_SIZE + o - pos];
      }
    }
  }

  /** Splicing each touched block is splicing the whole file. */
  lemma FlatSpliced(d0: seq<Sector>, n0: Node, d: seq<Sector>, n: Node, pos: nat, buf: seq<byte>)
    requires n0.Ok() && n.Ok() && pos + |buf| < MAX_FILE_SIZE
    requires forall b | 0 <= b < BLOCKS :: View(d, n, b) ==
               if pos / SECTOR_SIZE <= b <= (pos + |buf|) / SECTOR_SIZE then Spliced(View(d0, n0, b), b, pos, buf)
               else View(d0, n0, b)
    ensures Flat(d, n) == Splice(Flat(d0, n0), pos, buf)
  {
    hide View;
    var f0, f := Flat(d0, n0), Flat(d, n);
    forall k | 0 <= k < MAX_FILE_SIZE
      ensures f[k] == Splice(f0, pos, buf)[k]
    {
      var b, o := k / SECTOR_SIZE, k % SECTOR_SIZE;
      assert k == b * SECTOR_SIZE + o && b < BLOCKS;
    }
  }

  /** The first part of file_write: all_blocks is filled from the inode and, if the write reaches block 12 or beyond,
      from the indirect table, for which a sector is taken if there is none. */
  method LoadAllBlocks(vol: Volume, inode: Inode, endSec: nat) returns (allBlocks: array<u32>, hasTable: bool)
    requires vol.Valid() && inode.iNo in vol.table && inode.Shows(vol.table[inode.iNo])
    requires endSec >= 12 && inode.iSectors[12] == 0 ==> FreeBlocks(vol.sb, vol.blockBitmap.All()) > 0
    modifies vol, vol.blockBitmap.bits, inode
    ensures fresh(allBlocks) && allBlocks.Length == BLOCKS && hasTable == (endSec >= 12)
    ensures Working(vol, inode, allBlocks[..], hasTable)
    ensures inode.iNo == old(inode.iNo)
    ensures Shaped(vol.sb, old(vol.State())) && Shaped(vol.sb, vol.State())
    ensures OthersUntouched(vol.sb, old(vol.State()), vol.State(), inode.iNo)
    ensures vol.table[inode.iNo].size == old(vol.table[inode.iNo]).size
    ensures forall b :: 0 <= b < BLOCKS ==> vol.table[inode.iNo].BlockPtr(b) == old(vol.table[inode.iNo]).BlockPtr(b)
    ensures forall b | 0 <= b < BLOCKS ::
              View(vol.disk, vol.table[inode.iNo], b) == View(old(vol.disk), old(vol.table[inode.iNo]), b)
    ensures FreeBlocks(vol.sb, vol.blockBitmap.All()) == FreeBlocks(vol.sb, old(vol.blockBitmap.All())) -
            (if endSec >= 12 && old(inode.iSectors)[12] == 0 then 1 else 0)
  {
    hide Owned, BitsOf, FreeBlocks, Untouched, View, Record;
    ghost var img, ino := vol.State(), inode.iNo;
    OwnedShaped(vol.sb, img);
    OthersUntouchedReflexive(vol.sb, img, ino);
    assert OnDisk(vol.sb, vol.disk, ino, vol.table[ino]);
    allBlocks := new u32[BLOCKS];
    CopyWords(allBlocks, 0, inode.iSectors[..12]);
    hasTable := endSec >= 12;
    if hasTable {
      if inode.iSectors[12] == 0 {
        LoadFreshTable(vol, inode);
        CopyWords(allBlocks, 12, seq(ENTRIES, _ => 0));
      } else {
        UnpackPack(vol.table[ino].entries);
        CopyWords(allBlocks, 12, Unpack(At(vol.disk, inode.iSectors[12])));
      }
    }
  }

  /** Takes a sector for the indirect table; the table itself is not written yet. */
  method LoadFreshTable(vol: Volume, inode: Inode)
    requires vol.Core() && inode.iNo in vol.table && inode.Shows(vol.table[inode.iNo])
    requires inode.iSectors[12] == 0
    requires FreeBlocks(vol.sb, vol.blockBitmap.All()) > 0
    modifies vol, vol.blockBitmap.bits, inode`iSectors
    ensures vol.Core() && inode.iNo in vol.table && inode.Shows(vol.table[inode.iNo])
    ensures inode.iSectors[..12] == old(inode.iSectors)[..12] && inode.iSectors[12] != 0
    ensures vol.table[inode.iNo].entries == old(vol.table[inode.iNo]).entries
    ensures vol.table[inode.iNo].size == old(vol.table[inode.iNo]).size
    ensures Shaped(vol.sb, old(vol.State())) && Shaped(vol.sb, vol.State())
    ensures OthersUntouched(vol.sb, old(vol.State()), vol.State(), inode.iNo)
    ensures forall b :: 0 <= b < BLOCKS ==> vol.table[inode.iNo].BlockPtr(b) == old(vol.table[inode.iNo]).BlockPtr(b)
    ensures forall b | 0 <= b < BLOCKS ::
              View(vol.disk, vol.table[inode.iNo], b) == View(old(vol.disk), old(vol.table[inode.iNo]), b)
    ensures FreeBlocks(vol.sb, vol.blockBitmap.All()) == FreeBlocks(vol.sb, old(vol.blockBitmap.All())) - 1
  {
    hide Owned, BitsOf, FreeBlocks, Untouched, View, Record;
    ghost var img, ino := vol.State(), inode.iNo;
    OwnedShaped(vol.sb, img);
    assert img.table[ino].Ptr(12) == inode.iSectors[12];
    var blockLba := vol.AllocateFor(inode.iNo, 12);
    OwnedShaped(vol.sb, vol.State());
    inode.iSectors := inode.iSectors[12 := blockLba];
    assert vol.table[ino].Ptr(12) == blockLba;
  }

  method CopyWords(dst: array<u32>, at: nat, src: seq<u32>)
    requires at + |src| <= dst.Length
    modifies dst
    ensures dst[..] == Splice(old(dst[..]), at, src)
  {
    for k := 0 to |src|
      invariant forall j :: 0 <= j < dst.Length ==> dst[j] == if at <= j < at + k then src[j - at] else old(dst[j])
    {
      dst[at + k] := src[k];
    }
  }

  /** The second part of file_write: the buffer goes into the blocks from the one that holds pos to the one that holds
      pos + |buf|, which is touched even if no byte of the buffer falls into it. */
  method WriteSectors(vol: Volume, inode: Inode, allBlocks: array<u32>, pos: nat, buf: seq<byte>, ghost hasTable: bool)
    requires Working(vol, inode, allBlocks[..], hasTable)
    requires Shaped(vol.sb, vol.State()) && inode.iNo in vol.table
    requires pos + |buf| < MAX_FILE_SIZE
    requires hasTable == ((pos + |buf|) / SECTOR_SIZE >= 12)
    requires FreeBlocks(vol.sb, vol.blockBitmap.All()) >=
             Missing(vol.table[inode.iNo], pos / SECTOR_SIZE, (pos + |buf|) / SECTOR_SIZE + 1)
    modifies vol, vol.blockBitmap.bits, inode, allBlocks
    ensures Working(vol, inode, allBlocks[..], hasTable)
    ensures inode.iNo == old(inode.iNo)
    ensures TableLoaded(vol.disk, vol.table[inode.iNo])
    ensures Shaped(vol.sb, old(vol.State())) && Shaped(vol.sb, vol.State())
    ensures Patched(vol.sb, old(vol.State()), vol.State(), inode.iNo, pos, buf, (pos + |buf|) / SECTOR_SIZE + 1)
  {
    hide Working, Owned, BitsOf, FreeBlocks, Missing, Patched, Shaped, TableLoaded;
    ghost var img, ino := vol.State(), inode.iNo;
    PatchedStart(vol.sb, img, ino, pos, buf);
    var startSec, startOffset := pos / SECTOR_SIZE, pos % SECTOR_SIZE;
    var endSec := (pos + |buf|) / SECTOR_SIZE;
    var ioBuf := new byte[SECTOR_SIZE];
    if startSec == endSec {
      PatchedFree(vol.sb, img, vol.State(), ino, pos, buf, startSec, endSec + 1);
      PatchNext(vol, inode, startSec, allBlocks, ioBuf, startOffset, 0, |buf|, pos, buf, img, hasTable);
    } else {
      PatchedFree(vol.sb, img, vol.State(), ino, pos, buf, startSec, endSec + 1);
      PatchNext(vol, inode, startSec, allBlocks, ioBuf, startOffset, 0, SECTOR_SIZE - startOffset, pos, buf, img, hasTable);
      var bytesWritten := SECTOR_SIZE - startOffset;
      for idx := startSec + 1 to endSec
        invariant bytesWritten == idx * SECTOR_SIZE - pos
        invariant Scratch(vol, ioBuf) && inode.iNo == ino
        invariant Working(vol, inode, allBlocks[..], hasTable)
        invariant Shaped(vol.sb, vol.State())
        invariant Patched(vol.sb, img, vol.State(), ino, pos, buf, idx)
      {
        PatchedFree(vol.sb, img, vol.State(), ino, pos, buf, idx, endSec + 1);
        PatchNext(vol, inode, idx, allBlocks, ioBuf, 0, bytesWritten, bytesWritten + SECTOR_SIZE, pos, buf, img, hasTable);
        bytesWritten := bytesWritten + SECTOR_SIZE;
      }
      PatchedFree(vol.sb, img, vol.State(), ino, pos, buf, endSec, endSec + 1);
      PatchNext(vol, inode, endSec, allBlocks, ioBuf, 0, bytesWritten, |buf|, pos, buf, img, hasTable);
    }
  }

  /** One more block of the write: buf[from..to] goes into block idx at offset `at`. */
  method PatchNext(vol: Volume, inode: Inode, idx: nat, allBlocks: array<u32>, ioBuf: array<byte>, at: nat,
                   from: nat, to: nat, ghost pos: nat, buf: seq<byte>, ghost img0: Img, ghost hasTable: bool)
    requires Scratch(vol, ioBuf)
    requires Working(vol, inode, allBlocks[..], hasTable)
    requires pos + |buf| < MAX_FILE_SIZE && idx < BLOCKS && (idx >= 12 ==> hasTable)
    requires pos / SECTOR_SIZE <= idx <= (pos + |buf|) / SECTOR_SIZE
    requires at == (if idx == pos / SECTOR_SIZE then pos % SECTOR_SIZE else 0)
    requires from == (if idx == pos / SECTOR_SIZE then 0 else idx * SECTOR_SIZE - pos)
    requires to == (if idx == (pos + |buf|) / SECTOR_SIZE then |buf| else (idx + 1) * SECTOR_SIZE - pos)
    requires Shaped(vol.sb, img0) && Shaped(vol.sb, vol.State()) && inode.iNo in img0.table
    requires Patched(vol.sb, img0, vol.State(), inode.iNo, pos, buf, idx)
    requires img0.table[inode.iNo].BlockPtr(idx) == 0 ==> FreeBlocks(vol.sb, vol.blockBitmap.All()) > 0
    modifies vol, vol.blockBitmap.bits, inode, allBlocks, ioBuf
    ensures Working(vol, inode, allBlocks[..], hasTable)
    ensures inode.iNo == old(inode.iNo)
    ensures Shaped(vol.sb, vol.State())
    ensures Patched(vol.sb, img0, vol.State(), inode.iNo, pos, buf, idx + 1)
    ensures idx >= 12 || !hasTable ==> TableLoaded(vol.disk, vol.table[inode.iNo])
  {
    hide Owned, BitsOf, FreeBlocks, OthersUntouched, View, TableLoaded, Spliced;
    ghost var img, ino := vol.State(), inode.iNo;
    OwnedShaped(vol.sb, img);
    assert allBlocks[idx] == img.table[ino].BlockPtr(idx) by {
      if idx < 12 {
        assert allBlocks[..][..12][idx] == inode.iSectors[..12][idx];
      } else {
        assert allBlocks[..][12..][idx - 12] == img.table[ino].entries[idx - 12];
      }
    }
    SplicedPiece(View(img.disk, img.table[ino], idx), idx, pos, buf, at, from, to);
    PatchBlock(vol, inode, idx, allBlocks, ioBuf, at, buf[from..to], hasTable);
    OwnedShaped(vol.sb, vol.State());
    PatchedStep(vol.sb, img0, img, vol.State(), ino, pos, buf, idx);
  }

  /** Every block that holds a byte of the file has a sector. */
  ghost predicate HoleFree(n: Node)
    requires n.Ok()
  {
    forall b :: 0 <= b < BLOCKS && b * SECTOR_SIZE < n.size ==> n.BlockPtr(b) != 0
  }

  /** What file_write leaves, for an accepted write: the buffer is spliced into the file and nothing else changes. */
  ghost predicate Written(sb: SuperBlock, img0: Img, img: Img, ino: nat, pos: nat, buf: seq<byte>)
    requires Shaped(sb, img0) && Shaped(sb, img) && ino in img0.table && pos + |buf| < MAX_FILE_SIZE
  {
    && OthersUntouched(sb, img0, img, ino)
    && var n0, n := img0.table[ino], img.table[ino];
       && n.size == (if pos + |buf| > n0.size then pos + |buf| else n0.size)
       && Flat(img.disk, n) == Splice(Flat(img0.disk, n0), pos, buf)
       && FreeBlocks(sb, img.bits) == FreeBlocks(sb, img0.bits) - NeededBlocks(n0, pos, |buf|)
       && (HoleFree(n0) && pos <= n0.size ==> HoleFree(n))
  }

  /** The four states of a write: at the start, with the indirect table at hand, with the sectors written, at the end. */
  lemma WrittenInSteps(sb: SuperBlock, a: Img, b: Img, c: Img, d: Img, ino: nat, pos: nat, buf: seq<byte>)
    requires Shaped(sb, a) && Shaped(sb, b) && Shaped(sb, c) && Shaped(sb, d)
    requires ino in a.table && pos + |buf| < MAX_FILE_SIZE
    requires OthersUntouched(sb, a, b, ino) && OthersUntouched(sb, c, d, ino)
    requires b.table[ino].size == a.table[ino].size
    requires forall k :: 0 <= k < BLOCKS ==> b.table[ino].BlockPtr(k) == a.table[ino].BlockPtr(k)
    requires forall k :: 0 <= k < BLOCKS ==> View(b.disk, b.table[ino], k) == View(a.disk, a.table[ino], k)
    requires FreeBlocks(sb, b.bits) == FreeBlocks(sb, a.bits) -
             (if (pos + |buf|) / SECTOR_SIZE >= 12 && a.table[ino].sectors[12] == 0 then 1 else 0)
    requires Patched(sb, b, c, ino, pos, buf, (pos + |buf|) / SECTOR_SIZE + 1)
    requires var n := c.table[ino];
             d.table[ino] == n.(size := if pos + |buf| > n.size then pos + |buf| else n.size)
    requires d.bits == c.bits
    requires forall k :: 0 <= k < BLOCKS ==> View(d.disk, d.table[ino], k) == View(c.disk, c.table[ino], k)
    ensures Written(sb, a, d, ino, pos, buf)
  {
    hide View, Untouched, FreeBlocks;
    OthersUntouchedTransitive(sb, a, b, c, ino);
    OthersUntouchedTransitive(sb, a, c, d, ino);
    FlatSpliced(a.disk, a.table[ino], d.disk, d.table[ino], pos, buf);
    MissingSame(a.table[ino], b.table[ino], pos / SECTOR_SIZE, (pos + |buf|) / SECTOR_SIZE + 1);
    assert forall k :: 0 <= k < BLOCKS ==> d.table[ino].BlockPtr(k) == c.table[ino].BlockPtr(k);
  }

  lemma WrittenOthers(sb: SuperBlock, a: Img, d: Img, ino: nat, pos: nat, buf: seq<byte>)
    requires Shaped(sb, a) && Shaped(sb, d) && ino in a.table && pos + |buf| < MAX_FILE_SIZE
    requires Written(sb, a, d, ino, pos, buf)
    ensures OthersUntouched(sb, a, d, ino)
  {
  }

  lemma {:induction false} MissingSame(n: Node, n': Node, lo: nat, hi: nat)
    requires n.Ok() && n'.Ok() && hi <= BLOCKS
    requires forall k :: 0 <= k < BLOCKS ==> n'.BlockPtr(k) == n.BlockPtr(k)
    ensures Missing(n', lo, hi) == Missing(n, lo, hi)
  {
    if lo < hi {
      MissingSame(n, n', lo, hi - 1);
    }
  }

  /** file_write */
  method FileWrite(vol: Volume, file: File, buf: seq<byte>) returns (r: int)
    requires vol.Valid() && file.fdInode.iNo in vol.table && file.fdInode.Shows(vol.table[file.fdInode.iNo])
    requires |buf| < 0x1_0000_0000 && !GuardMisses(file.fdPos, |buf|)
    requires file.fdPos + |buf| < MAX_FILE_SIZE ==>
               FreeBlocks(vol.sb, vol.blockBitmap.All()) >=
               NeededBlocks(vol.table[file.fdInode.iNo], file.fdPos, |buf|)
    modifies vol, vol.blockBitmap.bits, file`fdPos, file.fdInode
    ensures vol.Valid() && file.fdInode.iNo == old(file.fdInode.iNo) && file.fdInode.iNo in vol.table
    ensures file.fdInode.Shows(vol.table[file.fdInode.iNo])
    ensures old(file.fdPos) + |buf| > MAX_FILE_SIZE ==>
              r == -1 && vol.State() == old(vol.State()) && file.fdPos == old(file.fdPos)
    ensures old(file.fdPos) + |buf| < MAX_FILE_SIZE ==>
              && r == |buf| && file.fdPos == old(file.fdPos) + |buf|
              && Shaped(vol.sb, old(vol.State())) && Shaped(vol.sb, vol.State())
              && Written(vol.sb, old(vol.State()), vol.State(), file.fdInode.iNo, old(file.fdPos), buf)
  {
    hide Owned, BitsOf, FreeBlocks, NeededBlocks, Written, GuardMisses, Wrap, OnDisk, BitmapOnDisk, View;
    hide Volume.Core;
    GuardMissesIff(file.fdPos, |buf|);
    if Wrap(file.fdPos + |buf|) > MAX_FILE_SIZE {
      return -1;
    }
    WriteAt(vol, file.fdInode, file.fdPos, buf);
    file.fdPos := file.fdPos + |buf|;
    r := |buf|;
  }

  /** file_write once the size has been checked. */
  method WriteAt(vol: Volume, inode: Inode, pos: nat, buf: seq<byte>)
    requires vol.Valid() && inode.iNo in vol.table && inode.Shows(vol.table[inode.iNo])
    requires pos + |buf| < MAX_FILE_SIZE
    requires FreeBlocks(vol.sb, vol.blockBitmap.All()) >= NeededBlocks(vol.table[inode.iNo], pos, |buf|)
    modifies vol, vol.blockBitmap.bits, inode
    ensures vol.Valid() && inode.iNo == old(inode.iNo) && inode.iNo in vol.table && inode.Shows(vol.table[inode.iNo])
    ensures Shaped(vol.sb, old(vol.State())) && Shaped(vol.sb, vol.State())
    ensures Written(vol.sb, old(vol.State()), vol.State(), inode.iNo, pos, buf)
  {
    hide Owned, BitsOf, FreeBlocks, Untouched, View, OnDisk, Patched, Working, Written, Missing, TableLoaded, Record;
    hide Volume.Core;
    ghost var a, ino := vol.State(), inode.iNo;
    vol.CoreShaped();
    var allBlocks, hasTable := LoadAllBlocks(vol, inode, (pos + |buf|) / SECTOR_SIZE);
    ghost var b := vol.State();
    MissingSame(a.table[ino], b.table[ino], pos / SECTOR_SIZE, (pos + |buf|) / SECTOR_SIZE + 1);
    WriteSectors(vol, inode, allBlocks, pos, buf, hasTable);
    ghost var c := vol.State();
    FinishWrite(vol, inode, pos + |buf|, allBlocks[..], hasTable);
    WrittenInSteps(vol.sb, a, b, c, vol.State(), ino, pos, buf);
    WrittenOthers(vol.sb, a, vol.State(), ino, pos, buf);
    AllOnDisk(vol.sb, a, vol.State(), ino);
  }

  /** The last lines of file_write: the size, and the inode's record on disk. */
  method FinishWrite(vol: Volume, inode: Inode, endPos: u32, ghost allBlocks: seq<u32>, ghost hasTable: bool)
    requires Working(vol, inode, allBlocks, hasTable)
    requires TableLoaded(vol.disk, vol.table[inode.iNo])
    modifies vol, inode`iSize
    ensures vol.Core() && inode.iNo in vol.table && inode.Shows(vol.table[inode.iNo])
    ensures OnDisk(vol.sb, vol.disk, inode.iNo, vol.table[inode.iNo])
    ensures Shaped(vol.sb, old(vol.State())) && Shaped(vol.sb, vol.State())
    ensures OthersUntouched(vol.sb, old(vol.State()), vol.State(), inode.iNo)
    ensures vol.State().bits == old(vol.State().bits)
    ensures var n := old(vol.table[inode.iNo]);
            vol.table[inode.iNo] == n.(size := if endPos > n.size then endPos else n.size)
    ensures forall k | 0 <= k < BLOCKS ::
              View(vol.disk, vol.table[inode.iNo], k) == View(old(vol.disk), old(vol.table[inode.iNo]), k)
  {
    hide Owned, BitsOf, FreeBlocks, Untouched, View, TableLoaded, Record;
    ghost var img, ino := vol.State(), inode.iNo;
    OwnedShaped(vol.sb, img);
    if endPos > inode.iSize {
      inode.iSize := endPos;
    }
    ResizeOwned(vol.sb, img, ino, inode.iSize);
    vol.table := vol.table[ino := vol.table[ino].(size := inode.iSize)];
    ghost var mid := vol.State();
    vol.InodeSync(inode);
    OwnedShaped(vol.sb, vol.State());
    OthersUntouchedTransitive(vol.sb, img, mid, vol.State(), ino);
  }

  // --- Contents ---

  /** The bytes past the end of the file are zeros, so that a write beyond the end leaves a gap of zeros. */
  ghost predicate ZeroTail(f: seq<byte>, size: nat) {
    forall k :: size <= k < |f| ==> f[k] == 0
  }

  /** A file's contents, a byte sequence of its size. */
  ghost function Contents(disk: seq<Sector>, n: Node): seq<byte>
    requires n.Ok() && n.size <= MAX_FILE_SIZE
  {
    Flat(disk, n)[..n.size]
  }

  /** Contents s padded with zeros up to n bytes if it is shorter. */
  function Padded(s: seq<byte>, n: nat): (r: seq<byte>)
    ensures |r| == if |s| < n then n else |s|
  {
    if |s| < n then s + seq(n - |s|, _ => 0) else s
  }

  /** An accepted write, seen on the file's contents: they are padded with zeros up to the end of the write and the buffer
      replaces the bytes at its position. */
  lemma ContentsAfterWrite(sb: SuperBlock, img0: Img, img: Img, ino: nat, pos: nat, buf: seq<byte>)
    requires Shaped(sb, img0) && Shaped(sb, img) && ino in img0.table && pos + |buf| < MAX_FILE_SIZE
    requires Written(sb, img0, img, ino, pos, buf)
    requires img0.table[ino].size <= MAX_FILE_SIZE
    requires ZeroTail(Flat(img0.disk, img0.table[ino]), img0.table[ino].size)
    ensures ino in img.table && img.table[ino].size <= MAX_FILE_SIZE
    ensures ZeroTail(Flat(img.disk, img.table[ino]), img.table[ino].size)
    ensures Contents(img.disk, img.table[ino]) ==
            Splice(Padded(Contents(img0.disk, img0.table[ino]), pos + |buf|), pos, buf)
  {
    hide View, OthersUntouched, FreeBlocks, NeededBlocks, HoleFree;
    WrittenKeys(sb, img0, img, ino, pos, buf);
    var f0, f := Flat(img0.disk, img0.table[ino]), Flat(img.disk, img.table[ino]);
    var c := Splice(Padded(Contents(img0.disk, img0.table[ino]), pos + |buf|), pos, buf);
    forall k | 0 <= k < |c|
      ensures f[k] == c[k]
    {
      assert f[k] == if pos <= k < pos + |buf| then buf[k - pos] else f0[k];
    }
  }

  lemma WrittenKeys(sb: SuperBlock, img0: Img, img: Img, ino: nat, pos: nat, buf: seq<byte>)
    requires Shaped(sb, img0) && Shaped(sb, img) && ino in img0.table && pos + |buf| < MAX_FILE_SIZE
    requires Written(sb, img0, img, ino, pos, buf)
    ensures ino in img.table
  {
  }

  // --- file_read ---

  /** What all_blocks holds for block b when the read starts. The indirect table is loaded only if the read ends after block
      12; until then the words behind the twelve direct ones are what the memory held before. */
  function Pointer(n: Node, endSec: nat, stale: seq<u32>, b: nat): u32
    requires n.Ok() && b < BLOCKS && |stale| == BLOCKS
  {
    if b >= 12 && endSec <= 12 then stale[b] else n.BlockPtr(b)
  }

  /** And so what it gets for block b. A block without a sector is read from sector 0. */
  function ReadBlock(disk: seq<Sector>, n: Node, endSec: nat, stale: seq<u32>, b: nat): Sector
    requires n.Ok() && b < BLOCKS && |stale| == BLOCKS
  {
    At(disk, Pointer(n, endSec, stale, b))
  }

  /** The bytes that file_read copies for a read of cnt bytes at pos. */
  ghost function ReadBytes(disk: seq<Sector>, n: Node, pos: nat, cnt: nat, stale: seq<u32>): (r: seq<byte>)
    requires n.Ok() && pos + cnt < MAX_FILE_SIZE && |stale| == BLOCKS
    ensures |r| == cnt
  {
    seq(cnt, k requires 0 <= k < cnt =>
      ReadBlock(disk, n, (pos + cnt) / SECTOR_SIZE, stale, (pos + k) / SECTOR_SIZE)[(pos + k) % SECTOR_SIZE])
  }

  lemma ReadByteAt(disk: seq<Sector>, n: Node, pos: nat, cnt: nat, stale: seq<u32>, k: nat)
    requires n.Ok() && pos + cnt < MAX_FILE_SIZE && |stale| == BLOCKS && k < cnt
    ensures ReadBytes(disk, n, pos, cnt, stale)[k] ==
            ReadBlock(disk, n, (pos + cnt) / SECTOR_SIZE, stale, (pos + k) / SECTOR_SIZE)[(pos + k) % SECTOR_SIZE]
    ensures Flat(disk, n)[pos..pos + cnt][k] == View(disk, n, (pos + k) / SECTOR_SIZE)[(pos + k) % SECTOR_SIZE]
  {
  }

  /** The blocks that hold bytes pos .. pos + cnt - 1 have sectors. */
  ghost predicate Allocated(n: Node, pos: nat, cnt: nat)
    requires n.Ok() && pos + cnt < MAX_FILE_SIZE
  {
    forall k :: pos <= k < pos + cnt ==> n.BlockPtr(k / SECTOR_SIZE) != 0
  }

  /** A read ends inside block 12 with bytes of that block still to be copied. */
  predicate EndsInBlock12(pos: nat, cnt: nat) {
    (pos + cnt) / SECTOR_SIZE == 12 && (pos + cnt) % SECTOR_SIZE > 0
  }

  /** The read returns exactly the bytes of the file. */
  ghost predicate ReadsRight(disk: seq<Sector>, n: Node, pos: nat, cnt: nat, stale: seq<u32>)
    requires n.Ok() && pos + cnt < MAX_FILE_SIZE && |stale| == BLOCKS
  {
    ReadBytes(disk, n, pos, cnt, stale) == Flat(disk, n)[pos..pos + cnt]
  }

  /** Byte k of the file is read from the right place on this disk: from its block's sector; from sector 0, for a block that
      has none, if that has a zero there; and in block 12 of a read that ends in it, if all sectors agree there. */
  ghost predicate ByteSafe(disk: seq<Sector>, n: Node, endSec: nat, k: nat)
    requires n.Ok() && k < MAX_FILE_SIZE
  {
    var b, o := k / SECTOR_SIZE, k % SECTOR_SIZE;
    if b == 12 && endSec == 12 then forall l: u32 :: At(disk, l)[o] == View(disk, n, b)[o]
    else n.BlockPtr(b) == 0 ==> At(disk, 0)[o] == 0
  }

  ghost predicate BytesSafe(disk: seq<Sector>, n: Node, endSec: nat, lo: nat, hi: nat)
    requires n.Ok() && hi <= MAX_FILE_SIZE
  {
    forall k :: lo <= k < hi ==> ByteSafe(disk, n, endSec, k)
  }

  lemma ByteReads(disk: seq<Sector>, n: Node, pos: nat, cnt: nat, stale: seq<u32>, k: nat)
    requires n.Ok() && pos + cnt < MAX_FILE_SIZE && |stale| == BLOCKS && k < cnt
    ensures var b, o, endSec := (pos + k) / SECTOR_SIZE, (pos + k) % SECTOR_SIZE, (pos + cnt) / SECTOR_SIZE;
            (ReadBytes(disk, n, pos, cnt, stale)[k] == Flat(disk, n)[pos..pos + cnt][k]) <==>
            if b == 12 && endSec == 12 then At(disk, stale[12])[o] == View(disk, n, b)[o]
            else n.BlockPtr(b) == 0 ==> At(disk, 0)[o] == 0
  {
    var b := (pos + k) / SECTOR_SIZE;
    ReadByteAt(disk, n, pos, cnt, stale, k);
    assert b <= (pos + cnt) / SECTOR_SIZE;
    ViewAt(disk, n, b);
  }

  /** On a given disk, file_read returns the bytes of the file, whatever was in the memory of all_blocks, if and only if each
      byte is read from a right place. */
  lemma ReadsRightIff(disk: seq<Sector>, n: Node, pos: nat, cnt: nat)
    requires n.Ok() && pos + cnt < MAX_FILE_SIZE
    ensures (forall stale: seq<u32> :: |stale| == BLOCKS ==> ReadsRight(disk, n, pos, cnt, stale)) <==>
            BytesSafe(disk, n, (pos + cnt) / SECTOR_SIZE, pos, pos + cnt)
  {
    hide View, ReadBytes, Flat;
    var f := Flat(disk, n)[pos..pos + cnt];
    if BytesSafe(disk, n, (pos + cnt) / SECTOR_SIZE, pos, pos + cnt) {
      forall stale: seq<u32> | |stale| == BLOCKS
        ensures ReadsRight(disk, n, pos, cnt, stale)
      {
        forall k | 0 <= k < cnt
          ensures ReadBytes(disk, n, pos, cnt, stale)[k] == f[k]
        {
          assert ByteSafe(disk, n, (pos + cnt) / SECTOR_SIZE, pos + k);
          ByteReads(disk, n, pos, cnt, stale, k);
        }
      }
    } else {
      var k :| pos <= k < pos + cnt && !ByteSafe(disk, n, (pos + cnt) / SECTOR_SIZE, k);
      var l: u32 := WrongSector(disk, n, (pos + cnt) / SECTOR_SIZE, k);
      var stale := seq(BLOCKS, _ => l);
      ByteReads(disk, n, pos, cnt, stale, k - pos);
      assert ReadBytes(disk, n, pos, cnt, stale)[k - pos] != f[k - pos];
      assert !ReadsRight(disk, n, pos, cnt, stale);
    }
  }

  lemma WrongSector(disk: seq<Sector>, n: Node, endSec: nat, k: nat) returns (l: u32)
    requires n.Ok() && k < MAX_FILE_SIZE && !ByteSafe(disk, n, endSec, k)
    ensures k / SECTOR_SIZE == 12 && endSec == 12 ==>
              At(disk, l)[k % SECTOR_SIZE] != View(disk, n, k / SECTOR_SIZE)[k % SECTOR_SIZE]
  {
    if k / SECTOR_SIZE == 12 && endSec == 12 {
      l :| At(disk, l)[k % SECTOR_SIZE] != View(disk, n, k / SECTOR_SIZE)[k % SECTOR_SIZE];
    } else {
      l := 0;
    }
  }

  /** So, in terms of the request and the block map alone: file_read returns the bytes of the file on every disk, whatever
      was in the memory of all_blocks, if and only if it does not end inside block 12 and meets no block without a sector. */
  lemma ReadsRightOnEveryDiskIff(n: Node, pos: nat, cnt: nat, size: nat)
    requires n.Ok() && cnt > 0 && pos + cnt < MAX_FILE_SIZE && size > 0
    ensures (forall disk: seq<Sector>, stale: seq<u32> :: |disk| == size && |stale| == BLOCKS ==>
               ReadsRight(disk, n, pos, cnt, stale))
            <==> !EndsInBlock12(pos, cnt) && Allocated(n, pos, cnt)
  {
    hide View, ReadBytes, Flat, ReadsRight;
    var endSec := (pos + cnt) / SECTOR_SIZE;
    if !EndsInBlock12(pos, cnt) && Allocated(n, pos, cnt) {
      forall disk: seq<Sector>, stale: seq<u32> | |disk| == size && |stale| == BLOCKS
        ensures ReadsRight(disk, n, pos, cnt, stale)
      {
        AllocatedSafe(disk, n, pos, cnt);
        ReadsRightIff(disk, n, pos, cnt);
      }
    } else {
      var disk := OnesThenZeros(size);
      var k := if EndsInBlock12(pos, cnt) then pos + cnt - 1 else AnUnallocated(n, pos, cnt);
      assert !ByteSafe(disk, n, endSec, k) by {
        if k / SECTOR_SIZE == 12 && endSec == 12 {
          assert At(disk, 0)[k % SECTOR_SIZE] == 1;
          ViewAt(disk, n, 12);
        }
      }
      ReadsRightIff(disk, n, pos, cnt);
    }
  }

  ghost function AnUnallocated(n: Node, pos: nat, cnt: nat): (k: nat)
    requires n.Ok() && pos + cnt < MAX_FILE_SIZE && !Allocated(n, pos, cnt)
    ensures pos <= k < pos + cnt && n.BlockPtr(k / SECTOR_SIZE) == 0
  {
    var k :| pos <= k < pos + cnt && n.BlockPtr(k / SECTOR_SIZE) == 0;
    k
  }

  function Ones(): Sector {
    seq(SECTOR_SIZE, _ => 1)
  }

  /** A disk whose first sector differs from all others in every byte. */
  function OnesThenZeros(size: nat): (disk: seq<Sector>)
    requires size > 0
    ensures |disk| == size && forall l, o: nat :: o < SECTOR_SIZE ==> At(disk, l)[o] == if l == 0 then 1 else 0
  {
    [Ones()] + seq(size - 1, _ => Zeros())
  }

  lemma AllocatedSafe(disk: seq<Sector>, n: Node, pos: nat, cnt: nat)
    requires n.Ok() && pos + cnt < MAX_FILE_SIZE && !EndsInBlock12(pos, cnt) && Allocated(n, pos, cnt)
    ensures BytesSafe(disk, n, (pos + cnt) / SECTOR_SIZE, pos, pos + cnt)
  {
    hide View;
  }

  /** A read within the size of a file without holes touches only blocks with sectors. */
  lemma HoleFreeAllocated(n: Node, pos: nat, cnt: nat)
    requires n.Ok() && pos + cnt < MAX_FILE_SIZE && pos + cnt <= n.size && HoleFree(n)
    ensures Allocated(n, pos, cnt)
  {
  }

  /** The first bytes of the inode bitmap and of the inode table differ: the root's bit is set in one, and its number, 0, starts
      the other. */
  lemma FirstBytesDiffer(vol: Volume)
    requires vol.Valid() && 0 in vol.table
    ensures vol.sb.inodeBitmapLba < |vol.disk| && vol.sb.inodeTableLba < |vol.disk|
    ensures At(vol.disk, vol.sb.inodeBitmapLba)[0] != At(vol.disk, vol.sb.inodeTableLba)[0]
  {
    hide Owned, BitmapOnDisk, TableLoaded;
    vol.CoreShaped();
    var n := vol.table[0];
    assert OnDisk(vol.sb, vol.disk, 0, n);
    assert vol.inodeBitmap.All()[0];
    FirstOfRecord(vol.disk, vol.sb, n);
  }

  lemma FirstOfRecord(disk: seq<Sector>, sb: SuperBlock, n: Node)
    requires WellFormed(sb) && n.Ok() && Record(disk, sb, 0) == Encode(InodeRec(0, n.size, n.sectors))
    ensures At(disk, sb.inodeTableLba)[0] == 0
  {
    assert LocateOffset(0) == 0 && LocateLba(sb, 0) == sb.inodeTableLba;
    assert Record(disk, sb, 0)[0] == At(disk, sb.inodeTableLba)[0];
    assert Encode(InodeRec(0, n.size, n.sectors))[0] == ByteOf(0, 0);
  }

  /** So on every volume in use, for reads that start before byte 6144 or there and meet no hole: the bytes of the file are
      returned, whichever of the disk's sectors the stale words name, if and only if the read does not end inside block 12. */
  lemma ReadsRightOnVolumeIff(vol: Volume, ino: nat, pos: nat, cnt: nat)
    requires vol.Valid() && 0 in vol.table && ino in vol.table && vol.table[ino].Ok()
    requires cnt > 0 && pos + cnt < MAX_FILE_SIZE && pos <= 12 * SECTOR_SIZE && Allocated(vol.table[ino], pos, cnt)
    ensures (forall stale: seq<u32> :: |stale| == BLOCKS && (forall l :: l in stale ==> l < |vol.disk|) ==>
               ReadsRight(vol.disk, vol.table[ino], pos, cnt, stale))
            <==> !EndsInBlock12(pos, cnt)
  {
    hide View, ReadBytes, Flat, ByteSafe, Owned, BitsOf;
    hide Volume.Valid;
    var n := vol.table[ino];
    if EndsInBlock12(pos, cnt) {
      FirstBytesDiffer(vol);
      var k := 12 * SECTOR_SIZE - pos;
      var v := View(vol.disk, n, 12)[0];
      var l: u32 := if At(vol.disk, vol.sb.inodeBitmapLba)[0] != v then vol.sb.inodeBitmapLba else vol.sb.inodeTableLba;
      var stale: seq<u32> := seq(BLOCKS, _ => l);
      ByteReads(vol.disk, n, pos, cnt, stale, k);
      assert ReadBytes(vol.disk, n, pos, cnt, stale)[k] != Flat(vol.disk, n)[pos..pos + cnt][k];
      assert !ReadsRight(vol.disk, n, pos, cnt, stale);
    } else {
      AllocatedSafe(vol.disk, n, pos, cnt);
      ReadsRightIff(vol.disk, n, pos, cnt);
    }
  }

  /** How much file_read sets out to copy: it clips the request at the end of the file if the sum of position and count, which
      wraps at 32 bits, is past it. */
  function Clipped(pos: u32, count: u32, size: u32): u32
    requires pos <= size
  {
    if Wrap(pos + count) > size then size - pos else count
  }

  /** The requests that it does not clip although they go past the end of the file. */
  predicate ClipMisses(pos: u32, count: u32, size: u32) {
    0x1_0000_0000 <= pos + count <= 0x1_0000_0000 + size
  }

  lemma ClipMissesIff(pos: u32, count: u32, size: u32)
    requires pos <= size
    ensures Clipped(pos, count, size) != (if count < size - pos then count else size - pos) <==> ClipMisses(pos, count, size)
    ensures ClipMisses(pos, count, size) ==> Clipped(pos, count, size) == count && Wrap(pos + count) < pos
  {
    assert pos + count >= 0x1_0000_0000 ==> Wrap(pos + count) == pos + count - 0x1_0000_0000;
  }

  /** Two such requests for all that there is, as 0xffffffff bytes: from byte 100 of a file of 1000 bytes the code would copy
      them all out of one sector; from byte 1024 of one of 2000 bytes it returns 1023 bytes where 976 are left. */
  lemma ClipMissesTwo()
    ensures ClipMisses(100, 0xffff_ffff, 1000) && Clipped(100, 0xffff_ffff, 1000) == 0xffff_ffff
    ensures Wrap(100 + 0xffff_ffff) / SECTOR_SIZE == 100 / SECTOR_SIZE
    ensures ClipMisses(1024, 0xffff_ffff, 2000) && Wrap(1024 + 0xffff_ffff) / SECTOR_SIZE == 1
    ensures |WrappedBytes([], Node(0, seq(13, _ => 0), seq(ENTRIES, _ => 0)), 1024, 0xffff_ffff, seq(BLOCKS, _ => 0))| == 1023
  {
  }

  /** The bytes that file_read copies when the end position has wrapped: the rest of the first sector and the start of the one
      where it takes the end to be, which lies before. */
  ghost function WrappedBytes(disk: seq<Sector>, n: Node, pos: u32, count: u32, stale: seq<u32>): (r: seq<byte>)
    requires n.Ok() && |stale| == BLOCKS && Wrap(pos + count) <= pos < MAX_FILE_SIZE
    ensures |r| == SECTOR_SIZE - pos % SECTOR_SIZE + Wrap(pos + count) % SECTOR_SIZE
  {
    var endSec := Wrap(pos + count) / SECTOR_SIZE;
    ReadBlock(disk, n, endSec, stale, pos / SECTOR_SIZE)[pos % SECTOR_SIZE..] +
    ReadBlock(disk, n, endSec, stale, endSec)[..Wrap(pos + count) % SECTOR_SIZE]
  }

  /** What file_read returns and copies. */
  ghost predicate ReadResult(disk: seq<Sector>, n: Node, pos: u32, count: u32, stale: seq<u32>, r: int, out: seq<byte>)
    requires n.Ok() && n.size < MAX_FILE_SIZE && |stale| == BLOCKS
  {
    if pos > n.size then r == -1 && out == []
    else if ClipMisses(pos, count, n.size) then
      && r == |out|
      && Wrap(pos + count) <= pos && out == WrappedBytes(disk, n, pos, count, stale)
    else
      && r == (if count < n.size - pos then count else n.size - pos)
      && out == ReadBytes(disk, n, pos, r, stale)
  }

  /** file_read: returns the number of bytes, or -1, and the bytes copied to the caller's buffer; `stale` is what the memory of
      all_blocks held before. A request whose end position wraps into the sector where it starts is excluded: the code then
      copies past its one-sector buffer. */
  method FileRead(vol: Volume, file: File, count: u32) returns (r: int, out: seq<byte>, ghost stale: seq<u32>)
    requires vol.Valid() && file.fdInode.iNo in vol.table && file.fdInode.Shows(vol.table[file.fdInode.iNo])
    requires file.fdInode.iSize < MAX_FILE_SIZE
    requires ClipMisses(file.fdPos, count, file.fdInode.iSize) && file.fdPos <= file.fdInode.iSize ==>
               Wrap(file.fdPos + count) / SECTOR_SIZE != file.fdPos / SECTOR_SIZE
    modifies file`fdPos
    ensures |stale| == BLOCKS
    ensures ReadResult(vol.disk, vol.table[file.fdInode.iNo], old(file.fdPos), count, stale, r, out)
    ensures file.fdPos == old(file.fdPos) + |out|
  {
    hide Owned, BitsOf, View, Record, ReadBytes, WrappedBytes;
    stale := seq(BLOCKS, _ => 0);
    var inode, pos := file.fdInode, file.fdPos;
    if pos > inode.iSize {
      return -1, [], stale;
    }
    ClipMissesIff(pos, count, inode.iSize);
    var size := Clipped(pos, count, inode.iSize);
    if size == 0 {
      return 0, [], stale;
    }
    var allBlocks;
    allBlocks, stale := ReadAllBlocks(vol, inode, Wrap(pos + size) / SECTOR_SIZE);
    out := CopySectors(vol, vol.table[inode.iNo], allBlocks, pos, size, stale);
    file.fdPos := pos + |out|;
    r := |out|;
  }

  /** all_blocks as file_read sets it up. */
  ghost predicate ReadMap(n: Node, endSec: nat, stale: seq<u32>, allBlocks: seq<u32>)
    requires n.Ok() && |allBlocks| == BLOCKS && |stale| == BLOCKS
  {
    forall b :: 0 <= b < BLOCKS ==> allBlocks[b] == Pointer(n, endSec, stale, b)
  }

  method ReadAllBlocks(vol: Volume, inode: Inode, endSec: nat) returns (allBlocks: array<u32>, ghost stale: seq<u32>)
    requires vol.Valid() && inode.iNo in vol.table && inode.Shows(vol.table[inode.iNo])
    ensures fresh(allBlocks) && allBlocks.Length == BLOCKS && |stale| == BLOCKS
    ensures ReadMap(vol.table[inode.iNo], endSec, stale, allBlocks[..])
  {
    hide Owned, BitsOf, Record, Unpack, Pack, Volume.Core;
    vol.CoreShaped();
    assert OnDisk(vol.sb, vol.disk, inode.iNo, vol.table[inode.iNo]);
    allBlocks := new u32[BLOCKS];
    stale := allBlocks[..];
    CopyWords(allBlocks, 0, inode.iSectors[..12]);
    if endSec > 12 {
      if inode.iSectors[12] == 0 {
        CopyWords(allBlocks, 12, seq(ENTRIES, _ => 0));
      } else {
        UnpackPack(vol.table[inode.iNo].entries);
        CopyWords(allBlocks, 12, Unpack(At(vol.disk, inode.iSectors[12])));
      }
    }
  }

  /** The copying of file_read: first, middle and last sector; no middle ones if the end position has wrapped. */
  method CopySectors(vol: Volume, ghost n: Node, allBlocks: array<u32>, pos: u32, size: u32, ghost stale: seq<u32>)
    returns (out: seq<byte>)
    requires n.Ok() && allBlocks.Length == BLOCKS && |stale| == BLOCKS && size > 0
    requires pos + size < MAX_FILE_SIZE || (Wrap(pos + size) / SECTOR_SIZE < pos / SECTOR_SIZE && pos < MAX_FILE_SIZE)
    requires ReadMap(n, Wrap(pos + size) / SECTOR_SIZE, stale, allBlocks[..])
    ensures out == if pos + size < MAX_FILE_SIZE then ReadBytes(vol.disk, n, pos, size, stale)
                   else WrappedBytes(vol.disk, n, pos, size, stale)
  {
    hide ReadBytes, WrappedBytes, ReadSoFar, Wrap, Pointer;
    Unwrapped(pos, size);
    ReadNothing(vol.disk, n, pos, size, stale);
    var startSec, startOffset := pos / SECTOR_SIZE, pos % SECTOR_SIZE;
    var endSec, endOffset := Wrap(pos + size) / SECTOR_SIZE, Wrap(pos + size) % SECTOR_SIZE;
    var ioBuf := new byte[SECTOR_SIZE];
    DiskRead(vol, allBlocks[startSec], ioBuf);
    if startSec == endSec {
      out := ioBuf[startOffset..startOffset + size];
      ReadMore(vol.disk, n, pos, size, stale, [], startSec, startOffset, out);
    } else {
      out := ioBuf[startOffset..];
      if startSec < endSec {
        ReadMore(vol.disk, n, pos, size, stale, [], startSec, startOffset, out);
        assert [] + out == out;
        out := CopyMiddle(vol, n, allBlocks, pos, size, stale, out);
      }
      DiskRead(vol, allBlocks[endSec], ioBuf);
      if startSec < endSec {
        ReadMore(vol.disk, n, pos, size, stale, out, endSec, 0, ioBuf[..endOffset]);
      } else {
        WrappedAre(vol.disk, n, pos, size, stale);
      }
      out := out + ioBuf[..endOffset];
    }
    if startSec <= endSec {
      ReadDone(vol.disk, n, pos, size, stale, out);
    }
  }

  /** The loop over the sectors between the first and the last */
  method CopyMiddle(vol: Volume, ghost n: Node, allBlocks: array<u32>, pos: u32, size: u32, ghost stale: seq<u32>, first: seq<byte>)
    returns (out: seq<byte>)
    requires n.Ok() && allBlocks.Length == BLOCKS && |stale| == BLOCKS && pos + size < MAX_FILE_SIZE
    requires pos / SECTOR_SIZE < (pos + size) / SECTOR_SIZE && |first| == (pos / SECTOR_SIZE + 1) * SECTOR_SIZE - pos
    requires ReadMap(n, (pos + size) / SECTOR_SIZE, stale, allBlocks[..]) && ReadSoFar(vol.disk, n, pos, size, stale, first)
    ensures |out| == (pos + size) / SECTOR_SIZE * SECTOR_SIZE - pos && ReadSoFar(vol.disk, n, pos, size, stale, out)
  {
    hide ReadBytes, ReadSoFar;
    out := first;
    var ioBuf := new byte[SECTOR_SIZE];
    for idx := pos / SECTOR_SIZE + 1 to (pos + size) / SECTOR_SIZE
      invariant |out| == idx * SECTOR_SIZE - pos && ReadSoFar(vol.disk, n, pos, size, stale, out)
    {
      DiskRead(vol, allBlocks[idx], ioBuf);
      ReadMore(vol.disk, n, pos, size, stale, out, idx, 0, ioBuf[..]);
      out := out + ioBuf[..];
    }
  }

  lemma WrappedAre(disk: seq<Sector>, n: Node, pos: u32, size: u32, stale: seq<u32>)
    requires n.Ok() && |stale| == BLOCKS && Wrap(pos + size) <= pos < MAX_FILE_SIZE
    ensures var endSec := Wrap(pos + size) / SECTOR_SIZE;
            WrappedBytes(disk, n, pos, size, stale) ==
            ReadBlock(disk, n, endSec, stale, pos / SECTOR_SIZE)[pos % SECTOR_SIZE..] +
            ReadBlock(disk, n, endSec, stale, endSec)[..Wrap(pos + size) % SECTOR_SIZE]
  {
  }

  lemma ReadDone(disk: seq<Sector>, n: Node, pos: nat, size: nat, stale: seq<u32>, out: seq<byte>)
    requires n.Ok() && pos + size < MAX_FILE_SIZE && |stale| == BLOCKS
    requires |out| == size && ReadSoFar(disk, n, pos, size, stale, out)
    ensures out == ReadBytes(disk, n, pos, size, stale)
  {
  }

  ghost predicate ReadSoFar(disk: seq<Sector>, n: Node, pos: nat, size: nat, stale: seq<u32>, out: seq<byte>)
    requires n.Ok() && pos + size < MAX_FILE_SIZE && |stale| == BLOCKS
  {
    out <= ReadBytes(disk, n, pos, size, stale)
  }

  lemma Unwrapped(pos: u32, size: u32)
    ensures pos + size < MAX_FILE_SIZE ==> Wrap(pos + size) == pos + size
  {
  }

  lemma ReadNothing(disk: seq<Sector>, n: Node, pos: nat, size: nat, stale: seq<u32>)
    requires n.Ok() && |stale| == BLOCKS
    ensures pos + size < MAX_FILE_SIZE ==> ReadSoFar(disk, n, pos, size, stale, [])
  {
  }

  lemma ReadMore(disk: seq<Sector>, n: Node, pos: nat, size: nat, stale: seq<u32>, out: seq<byte>, idx: nat, at: nat,
                 piece: seq<byte>)
    requires n.Ok() && pos + size < MAX_FILE_SIZE && idx < BLOCKS && |stale| == BLOCKS
    requires ReadSoFar(disk, n, pos, size, stale, out)
    requires pos + |out| == idx * SECTOR_SIZE + at && |out| + |piece| <= size && at + |piece| <= SECTOR_SIZE
    requires piece == ReadBlock(disk, n, (pos + size) / SECTOR_SIZE, stale, idx)[at..at + |piece|]
    ensures ReadSoFar(disk, n, pos, size, stale, out + piece)
  {
    var r := ReadBytes(disk, n, pos, size, stale);
    forall k | 0 <= k < |piece|
      ensures piece[k] == r[|out| + k]
    {
      assert (pos + |out| + k) / SECTOR_SIZE == idx && (pos + |out| + k) % SECTOR_SIZE == at + k;
    }
  }
}
