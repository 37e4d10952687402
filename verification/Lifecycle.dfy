/** Inodes from allocation to release: file_create of fs/file.c, inode_release of fs/inode.c and what sys_unlink of fs/fs.c
    does with a file it has found. */
module Lifecycle {
  import opened Words
  import opened Bitmaps
  import opened Layout
  import opened InodeTable
  import opened BlockMap
  import opened Volumes
  import opened DirEntries
  import opened Directories

  /** inode_init */
  function EmptyNode(): (n: Node)
    ensures n.Ok()
  {
    Node(0, seq(13, _ => 0), seq(ENTRIES, _ => 0))
  }

  lemma EmptyPointers()
    ensures forall p: nat :: p < POINTERS ==> EmptyNode().Ptr(p) == 0
  {
  }

  // --- The bitmap is determined by the block map ---

  /** Sector l is pointed to. */
  ghost predicate Used(img: Img, l: int)
    requires forall j :: j in img.table ==> img.table[j].Ok()
  {
    l != 0 && exists j, p :: j in img.table && 0 <= p < POINTERS && img.table[j].Ptr(p) == l
  }

  lemma BitMeansUsed(sb: SuperBlock, img: Img, i: nat)
    requires Owned(sb, img) && i < |img.bits|
    ensures img.bits[i] <==> Used(img, sb.dataStartLba + i)
  {
    var l := sb.dataStartLba + i;
    if img.bits[i] {
      assert img.bits[l - sb.dataStartLba];
      assert l in img.owner;
      var o := img.owner[l];
      assert img.table[o.ino].Ptr(o.pos) == l;
    }
    if Used(img, l) {
      var j, p :| j in img.table && 0 <= p < POINTERS && img.table[j].Ptr(p) == l;
      PtrOwned(sb, img, j, p);
    }
  }

  /** Two states with the same pointers have the same block bitmap. */
  lemma SamePointersSameBits(sb: SuperBlock, a: Img, b: Img)
    requires Owned(sb, a) && Owned(sb, b) && a.table.Keys == b.table.Keys
    requires forall j :: j in a.table ==> a.table[j].sectors == b.table[j].sectors && a.table[j].entries == b.table[j].entries
    ensures a.bits == b.bits
  {
    hide Owned;
    OwnedShaped(sb, a);
    OwnedShaped(sb, b);
    forall i | 0 <= i < |a.bits|
      ensures a.bits[i] == b.bits[i]
    {
      var l := sb.dataStartLba + i;
      BitMeansUsed(sb, a, i);
      BitMeansUsed(sb, b, i);
      if Used(a, l) {
        var j, p :| j in a.table && 0 <= p < POINTERS && a.table[j].Ptr(p) == l;
        assert b.table[j].Ptr(p) == l;
      }
      if Used(b, l) {
        var j, p :| j in b.table && 0 <= p < POINTERS && b.table[j].Ptr(p) == l;
        assert a.table[j].Ptr(p) == l;
      }
    }
  }

  /** Inode ino points to sector l. */
  ghost predicate Holds(n: Node, l: int)
    requires n.Ok()
  {
    l != 0 && exists p :: 0 <= p < POINTERS && n.Ptr(p) == l
  }

  /** When an inode leaves the table, exactly the bits of the sectors it held are cleared. */
  lemma ReleasedBits(sb: SuperBlock, a: Img, b: Img, ino: nat)
    requires Owned(sb, a) && Owned(sb, b) && ino in a.table && b.table == a.table - {ino}
    ensures forall i :: 0 <= i < |a.bits| ==>
              i < |b.bits| && b.bits[i] == (a.bits[i] && !Holds(a.table[ino], sb.dataStartLba + i))
  {
    hide Owned;
    OwnedShaped(sb, a);
    OwnedShaped(sb, b);
    forall i | 0 <= i < |a.bits|
      ensures b.bits[i] == (a.bits[i] && !Holds(a.table[ino], sb.dataStartLba + i))
    {
      var l := sb.dataStartLba + i;
      BitMeansUsed(sb, a, i);
      BitMeansUsed(sb, b, i);
      if Used(b, l) {
        var j, p :| j in b.table && 0 <= p < POINTERS && b.table[j].Ptr(p) == l;
        assert a.table[j].Ptr(p) == l;
        PtrOwned(sb, a, j, p);
        forall q | 0 <= q < POINTERS && a.table[ino].Ptr(q) == l
          ensures false
        {
          PtrOwned(sb, a, ino, q);
        }
      }
      if Used(a, l) && !Holds(a.table[ino], l) {
        var j, p :| j in a.table && 0 <= p < POINTERS && a.table[j].Ptr(p) == l;
        assert j != ino;
        assert b.table[j].Ptr(p) == l;
      }
    }
  }

  // --- inode_release ---

  /** All pointers of an inode have been cleared. */
  ghost predicate Stripped(n: Node)
    requires n.Ok()
  {
    forall p :: 0 <= p < POINTERS ==> n.Ptr(p) == 0
  }

  /** An inode that holds nothing can leave the table. */
  lemma RemoveOwned(sb: SuperBlock, img: Img, ino: nat)
    requires Owned(sb, img) && ino in img.table && Stripped(img.table[ino])
    ensures Owned(sb, img.(table := img.table - {ino}))
  {
    var img' := img.(table := img.table - {ino});
    assert Shaped(sb, img');
    assert PointersOwned(img');
    forall l | l in img'.owner
      ensures img'.owner[l].ino in img'.table
    {
      assert img.table[img.owner[l].ino].Ptr(img.owner[l].pos) == l;
    }
  }

  /** Every inode but ino is untouched. */
  ghost predicate OnlyLost(sb: SuperBlock, img: Img, img': Img, ino: nat)
    requires Shaped(sb, img) && Shaped(sb, img')
  {
    && img'.table.Keys == img.table.Keys - {ino}
    && forall j :: j in img.table && j != ino ==> Untouched(sb, img, img', j)
  }

  lemma RemoveOthers(sb: SuperBlock, a: Img, b: Img, ino: nat)
    requires Shaped(sb, a) && Shaped(sb, b) && ino in b.table && OthersUntouched(sb, a, b, ino)
    ensures var c := b.(table := b.table - {ino}); Shaped(sb, c) && OnlyLost(sb, a, c, ino) && c.table == a.table - {ino}
  {
    var c := b.(table := b.table - {ino});
    forall j | j in a.table && j != ino
      ensures c.table[j] == a.table[j] && Untouched(sb, a, c, j)
    {
      assert Untouched(sb, a, b, j);
    }
  }

  /** The pointers that inode_release has given back so far: the table's, then those of blocks below idx. */
  ghost predicate Giving(n0: Node, n: Node, blocks: seq<u32>, idx: nat)
    requires n0.Ok() && n.Ok() && |blocks| == BLOCKS
  {
    && n.sectors[12] == 0
    && forall b :: 0 <= b < BLOCKS ==> n.BlockPtr(b) == if b < idx then 0 else blocks[b]
  }

  /** The freeing loop of inode_release, with what the source asserts: no sector freed is the partition's first, which is
      the root directory's. */
  method GiveBack(vol: Volume, ghost ino: nat, tableLba: u32, blocks: seq<u32>, blockCnt: nat)
    requires vol.Core() && ino in vol.table && ino != 0 && |blocks| == BLOCKS
    requires 0 in vol.table && vol.table[0].sectors[0] == vol.sb.dataStartLba
    requires tableLba == vol.table[ino].sectors[12]
    requires forall b :: 0 <= b < BLOCKS ==> blocks[b] == vol.table[ino].BlockPtr(b)
    requires blockCnt == (if tableLba == 0 then 12 else 140)
    requires forall b :: blockCnt <= b < BLOCKS ==> blocks[b] == 0
    modifies vol, vol.blockBitmap.bits
    ensures vol.Core() && ino in vol.table && vol.table[ino].Ok() && Stripped(vol.table[ino])
    ensures Shaped(vol.sb, old(vol.State())) && Shaped(vol.sb, vol.State())
    ensures OthersUntouched(vol.sb, old(vol.State()), vol.State(), ino)
  {
    hide Owned, BitsOf, Untouched, View, FreeBlocks, Revoked, TableLoaded;
    ghost var a := vol.State();
    vol.CoreShaped();
    OthersUntouchedReflexive(vol.sb, a, ino);
    if tableLba != 0 {
      FreeNotFirst(vol, tableLba, ino, 12);
    }
    StartGiving(vol.table[ino], blocks);
    for idx := 0 to blockCnt
      invariant vol.Core() && ino in vol.table && vol.table[ino].Ok()
      invariant 0 in vol.table && vol.table[0].Ok() && vol.table[0].sectors[0] == vol.sb.dataStartLba
      invariant Giving(a.table[ino], vol.table[ino], blocks, idx)
      invariant Shaped(vol.sb, vol.State()) && OthersUntouched(vol.sb, a, vol.State(), ino)
    {
      if blocks[idx] != 0 {
        ghost var m := vol.State();
        FreeNotFirst(vol, blocks[idx], ino, PosOf(idx));
        OthersUntouchedTransitive(vol.sb, a, m, vol.State(), ino);
        NextGiving(a.table[ino], m.table[ino], vol.table[ino], blocks, idx);
      }
    }
    DoneGiving(a.table[ino], vol.table[ino], blocks, blockCnt);
  }

  lemma StartGiving(n: Node, blocks: seq<u32>)
    requires n.Ok() && n.sectors[12] == 0 && |blocks| == BLOCKS && forall b :: 0 <= b < BLOCKS ==> blocks[b] == n.BlockPtr(b)
    ensures forall n0: Node :: n0.Ok() ==> Giving(n0, n, blocks, 0)
  {
  }

  lemma NextGiving(n0: Node, n: Node, n': Node, blocks: seq<u32>, idx: nat)
    requires n0.Ok() && n.Ok() && n'.Ok() && |blocks| == BLOCKS && idx < BLOCKS
    requires Giving(n0, n, blocks, idx) && n' == n.WithPtr(PosOf(idx), 0)
    ensures Giving(n0, n', blocks, idx + 1)
  {
    assert n'.Ptr(12) == n.Ptr(12);
    forall b | 0 <= b < BLOCKS
      ensures n'.BlockPtr(b) == if b <= idx then 0 else blocks[b]
    {
      assert n.BlockPtr(b) == if b < idx then 0 else blocks[b];
      assert n'.Ptr(PosOf(b)) == if b == idx then 0 else n.Ptr(PosOf(b));
    }
  }

  lemma DoneGiving(n0: Node, n: Node, blocks: seq<u32>, idx: nat)
    requires n0.Ok() && n.Ok() && |blocks| == BLOCKS && idx <= BLOCKS
    requires Giving(n0, n, blocks, idx) && forall b :: idx <= b < BLOCKS ==> blocks[b] == 0
    ensures Stripped(n)
  {
    forall p | 0 <= p < POINTERS
      ensures n.Ptr(p) == 0
    {
      if p < 12 {
        assert n.BlockPtr(p) == n.Ptr(p);
      } else if p > 12 {
        assert n.BlockPtr(p - 1) == n.Ptr(p);
      }
    }
  }

  /** Freeing one sector, with the ASSERT that it is not the partition's first. */
  method FreeNotFirst(vol: Volume, lba: u32, ghost ino: nat, ghost pos: nat)
    requires vol.Core() && ino in vol.table && ino != 0 && pos < POINTERS
    requires 0 in vol.table && vol.table[0].sectors[0] == vol.sb.dataStartLba
    requires lba == vol.table[ino].Ptr(pos) != 0
    modifies vol, vol.blockBitmap.bits
    ensures vol.Core()
    ensures Shaped(vol.sb, old(vol.State())) && Shaped(vol.sb, vol.State())
    ensures OthersUntouched(vol.sb, old(vol.State()), vol.State(), ino)
    ensures vol.table == old(vol.table)[ino := old(vol.table)[ino].WithPtr(pos, 0)]
  {
    hide Owned, BitsOf, Untouched, View, FreeBlocks, Revoked, TableLoaded;
    ghost var a := vol.State();
    vol.CoreShaped();
    assert a.table[0].Ptr(0) == vol.sb.dataStartLba;
    PtrOwned(vol.sb, a, 0, 0);
    PtrOwned(vol.sb, a, ino, pos);
    assert lba - vol.sb.dataStartLba > 0;
    vol.FreeFor(lba, ino, pos);
    RevokedNode(vol.sb, a, vol.State(), ino, pos);
  }

  /** bitmap_sync for the inode bitmap, whose 4096 bits are one sector. */
  method InodeBitmapSync(vol: Volume, inodeNo: nat)
    requires vol.Core() && inodeNo < MAX_FILES_PER_PART
    modifies vol`disk, vol.ledger`synced
    ensures vol.Core()
    ensures vol.ledger.synced == vol.inodeBitmap.bits[..]
    ensures Shaped(vol.sb, old(vol.State())) && Shaped(vol.sb, vol.State())
    ensures forall j :: j in vol.table ==> Untouched(vol.sb, old(vol.State()), vol.State(), j)
  {
    hide Owned, BitsOf, Untouched, View, TableLoaded;
    ghost var a := vol.State();
    vol.CoreShaped();
    var offsetSec := inodeNo / (8 * 512);
    assert offsetSec == 0;
    vol.DiskWrite(vol.sb.inodeBitmapLba + offsetSec, BitmapSector(vol.inodeBitmap.bits[..], offsetSec));
    MetadataWrite(vol.sb, a, vol.disk);
    vol.ledger.synced := vol.inodeBitmap.bits[..];
  }

  /** Taking inode ino, which holds nothing any more, out of the table and out of the inode bitmap in memory. */
  method ForgetInode(vol: Volume, inodeNo: nat)
    requires vol.Core() && inodeNo in vol.table && vol.table[inodeNo].Ok() && Stripped(vol.table[inodeNo])
    modifies vol`table, vol.inodeBitmap.bits
    ensures vol.Core()
    ensures vol.table == old(vol.table) - {inodeNo}
    ensures vol.State() == old(vol.State()).(table := vol.table)
  {
    hide Owned, BitsOf, FreeBlocks;
    vol.CoreShaped();
    RemoveOwned(vol.sb, vol.State(), inodeNo);
    vol.inodeBitmap.Set(inodeNo, false);
    vol.table := vol.table - {inodeNo};
  }

  /** all_blocks of inode_release, and how many of its entries the freeing loop visits */
  method BlocksToFree(vol: Volume, inode: Inode) returns (blocks: seq<u32>, blockCnt: nat)
    requires vol.Valid() && inode.iNo in vol.table && inode.Shows(vol.table[inode.iNo])
    ensures |blocks| == BLOCKS && forall b :: 0 <= b < BLOCKS ==> blocks[b] == vol.table[inode.iNo].BlockPtr(b)
    ensures blockCnt == (if inode.iSectors[12] == 0 then 12 else 140)
    ensures forall b :: blockCnt <= b < BLOCKS ==> blocks[b] == 0
  {
    hide Owned, BitsOf, Record, Pack;
    vol.CoreShaped();
    ghost var n := vol.table[inode.iNo];
    assert OnDisk(vol.sb, vol.disk, inode.iNo, n);
    blockCnt := 12;
    blocks := inode.iSectors[..12] + seq(ENTRIES, _ => 0);
    if inode.iSectors[12] != 0 {
      UnpackPack(n.entries);
      blocks := inode.iSectors[..12] + Unpack(At(vol.disk, inode.iSectors[12]));
      blockCnt := 140;
    }
    forall b | 0 <= b < BLOCKS
      ensures blocks[b] == n.BlockPtr(b)
    {
    }
  }

  /** inode_release: the inode is gone, its sectors are free and its number is free; no other inode is touched. */
  method InodeRelease(vol: Volume, inodeNo: nat)
    requires vol.Valid() && inodeNo in vol.table && inodeNo != 0
    requires 0 in vol.table && vol.table[0].Ok() && vol.table[0].sectors[0] == vol.sb.dataStartLba
    modifies vol, vol.blockBitmap.bits, vol.inodeBitmap.bits, vol.ledger
    ensures vol.Valid()
    ensures Shaped(vol.sb, old(vol.State())) && Shaped(vol.sb, vol.State())
    ensures vol.table == old(vol.table) - {inodeNo}
    ensures OnlyLost(vol.sb, old(vol.State()), vol.State(), inodeNo)
  {
    hide Owned, BitsOf, Untouched, View, OnDisk, FreeBlocks, Stripped;
    hide Volume.Core;
    ghost var a := vol.State();
    vol.CoreShaped();
    var inode := vol.InodeOpen(inodeNo);
    var blocks, blockCnt := BlocksToFree(vol, inode);
    GiveBack(vol, inodeNo, inode.iSectors[12], blocks, blockCnt);
    ghost var b := vol.State();
    RemoveOthers(vol.sb, a, b, inodeNo);
    ForgetInode(vol, inodeNo);
    ghost var c := vol.State();
    InodeBitmapSync(vol, inodeNo);
    OnlyLostThen(vol.sb, a, c, vol.State(), inodeNo);
  }

  lemma OnlyLostThen(sb: SuperBlock, a: Img, b: Img, c: Img, ino: nat)
    requires Shaped(sb, a) && Shaped(sb, b) && Shaped(sb, c)
    requires OnlyLost(sb, a, b, ino) && c.table == b.table
    requires forall j :: j in b.table ==> Untouched(sb, b, c, j)
    requires forall j :: j in a.table ==> OnDisk(sb, a.disk, j, a.table[j])
    ensures OnlyLost(sb, a, c, ino)
    ensures forall j :: j in c.table ==> OnDisk(sb, c.disk, j, c.table[j])
  {
    forall j | j in a.table && j != ino
      ensures Untouched(sb, a, c, j)
    {
      assert Untouched(sb, a, b, j) && Untouched(sb, b, c, j);
    }
    forall j | j in c.table
      ensures OnDisk(sb, c.disk, j, c.table[j])
    {
      assert Untouched(sb, a, c, j);
    }
  }

  // --- file_create ---

  /** create_dir_entry, into an entry that is all zeros */
  function CreateDirEntry(filename: seq<byte>, inodeNo: u32, fileType: u32): (e: DirEntry)
    requires |filename| <= NAME_LEN
    ensures e.Ok()
  {
    DirEntry(filename + seq(NAME_LEN - |filename|, _ => 0), inodeNo, fileType)
  }

  lemma {:induction false} CStringPadded(s: seq<byte>, n: nat)
    requires n > 0 && forall k :: 0 <= k < |s| ==> s[k] != 0
    ensures CString(s + seq(n, _ => 0)) == s
  {
    var t := s + seq(n, _ => 0);
    if s == [] {
    } else {
      assert t[1..] == s[1..] + seq(n, _ => 0);
      CStringPadded(s[1..], n);
    }
  }

  /** A new inode without sectors joins the table. */
  lemma BirthOwned(sb: SuperBlock, img: Img, ino: nat)
    requires Owned(sb, img) && ino !in img.table && ino < MAX_FILES_PER_PART
    ensures var img' := img.(table := img.table[ino := EmptyNode()]);
            && Owned(sb, img')
            && forall j :: j in img.table ==> Untouched(sb, img, img', j)
  {
    EmptyPointers();
    var img' := img.(table := img.table[ino := EmptyNode()]);
    assert Shaped(sb, img');
    assert PointersOwned(img');
    assert OwnersPoint(sb, img') && NoLeak(sb, img');
    forall j | j in img.table
      ensures Untouched(sb, img, img', j)
    {
      UntouchedFrame(sb, img, img', j);
    }
  }

  /** The inodes of the first state are all as they were. */
  ghost predicate Kept(sb: SuperBlock, a: Img, b: Img)
    requires Shaped(sb, a) && Shaped(sb, b)
  {
    forall j :: j in a.table ==> Untouched(sb, a, b, j)
  }

  /** inode_sync of a new inode, and bitmap_sync of its number, which was taken in memory before. */
  method BringToLife(vol: Volume, inode: Inode)
    requires vol.Core() && vol.ledger.pending == {inode.iNo as nat} && inode.iNo < MAX_FILES_PER_PART
    requires inode.Shows(EmptyNode())
    requires forall j :: j in vol.table ==> OnDisk(vol.sb, vol.disk, j, vol.table[j])
    modifies vol, vol.ledger
    ensures vol.Valid()
    ensures Shaped(vol.sb, old(vol.State())) && Shaped(vol.sb, vol.State())
    ensures vol.table == old(vol.table)[inode.iNo := EmptyNode()]
    ensures vol.State().bits == old(vol.State().bits)
    ensures inode.iNo !in old(vol.table) && Kept(vol.sb, old(vol.State()), vol.State())
  {
    hide Owned, BitsOf, Untouched, View, OnDisk, FreeBlocks, Record, EmptyNode;
    ghost var a, ino := vol.State(), inode.iNo;
    vol.CoreShaped();
    BirthOwned(vol.sb, a, ino);
    vol.ledger.pending := {};
    vol.table := vol.table[ino := EmptyNode()];
    ghost var b := vol.State();
    vol.InodeSync(inode);
    ghost var c := vol.State();
    EmptyLoaded(b.disk);
    InodeBitmapSync(vol, inode.iNo);
    LifeInSteps(vol.sb, a, b, c, vol.State(), ino);
  }

  lemma EmptyLoaded(disk: seq<Sector>)
    ensures TableLoaded(disk, EmptyNode())
  {
  }

  lemma LifeInSteps(sb: SuperBlock, a: Img, b: Img, c: Img, d: Img, ino: nat)
    requires Shaped(sb, a) && Shaped(sb, b) && Shaped(sb, c) && Shaped(sb, d)
    requires ino !in a.table && b == a.(table := a.table[ino := EmptyNode()])
    requires Kept(sb, a, b) && OthersUntouched(sb, b, c, ino) && c.table == b.table && Kept(sb, c, d) && d.table == c.table
    requires forall j :: j in a.table ==> OnDisk(sb, a.disk, j, a.table[j])
    requires ino in c.table && OnDisk(sb, c.disk, ino, c.table[ino])
    ensures Kept(sb, a, d)
    ensures forall j :: j in d.table ==> OnDisk(sb, d.disk, j, d.table[j])
  {
    hide OnDisk, View;
    forall j | j in a.table
      ensures Untouched(sb, a, d, j)
    {
      assert Untouched(sb, a, b, j);
      assert Untouched(sb, b, c, j) && Untouched(sb, c, d, j);
    }
    forall j | j in d.table
      ensures OnDisk(sb, d.disk, j, d.table[j])
    {
      assert Untouched(sb, c, d, j);
      if j != ino {
        assert Untouched(sb, a, d, j);
      }
    }
  }

  /** inode_bitmap_alloc: takes the lowest free inode number in memory, or gives -1. */
  method InodeBitmapAlloc(vol: Volume) returns (r: int)
    requires vol.Core() && vol.Settled()
    modifies vol.inodeBitmap.bits, vol.ledger
    ensures vol.Core() && vol.State() == old(vol.State())
    ensures r == -1 ==> vol.Settled() && vol.inodeBitmap.All() == old(vol.inodeBitmap.All())
    ensures r == -1 ==> forall j :: 0 <= j < MAX_FILES_PER_PART ==> j in vol.table
    ensures r != -1 ==> 0 <= r < MAX_FILES_PER_PART && r !in vol.table && vol.ledger.pending == {r as nat}
    ensures r != -1 ==> forall j :: 0 <= j < r ==> j in vol.table
    ensures r != -1 ==> vol.inodeBitmap.All() == old(vol.inodeBitmap.All())[r := true]
    ensures r != -1 ==> |vol.ledger.synced| == SECTOR_SIZE
    ensures r != -1 ==> BitsOf(vol.ledger.synced) == old(vol.inodeBitmap.All()) == vol.inodeBitmap.All()[r := false]
  {
    hide Owned, BitsOf, FreeBlocks;
    r := vol.inodeBitmap.TestAndSet();
    if r != -1 {
      vol.ledger.pending := {r as nat};
    } else {
      forall j | 0 <= j < MAX_FILES_PER_PART
        ensures vol.inodeBitmap.All()[j]
      {
        assert vol.inodeBitmap.Bits()[j] == vol.inodeBitmap.All()[j];
        assert !ClearRun(vol.inodeBitmap.Bits(), j, 1);
      }
    }
  }

  /** What file_create leaves: directory dir has one more entry, in slot i, for the new inode ino, which holds nothing; no
      other inode is touched. */
  ghost predicate Created(sb: SuperBlock, a: Img, b: Img, dir: nat, ino: nat, i: nat, e: DirEntry)
    requires Shaped(sb, a) && Shaped(sb, b) && dir in a.table && i < SLOTS
  {
    && ino !in a.table
    && b.table.Keys == a.table.Keys + {ino}
    && b.table[ino] == EmptyNode()
    && Grew(sb, a, b, dir, i, e)
    && forall j :: j in a.table && j != dir ==> Untouched(sb, a, b, j)
  }

  lemma CreatedInSteps(sb: SuperBlock, a: Img, b: Img, c: Img, d: Img, dir: nat, ino: nat, i: nat, e: DirEntry)
    requires Shaped(sb, a) && Shaped(sb, b) && Shaped(sb, c) && Shaped(sb, d) && dir in a.table && i < SLOTS
    requires Added(sb, a, b, dir, i, e)
    requires OthersUntouched(sb, b, c, dir) && c.table == b.table && c.bits == b.bits
    requires forall k :: 0 <= k < BLOCKS ==> View(c.disk, c.table[dir], k) == View(b.disk, b.table[dir], k)
    requires ino !in c.table && d.table == c.table[ino := EmptyNode()] && d.bits == c.bits && Kept(sb, c, d)
    ensures Created(sb, a, d, dir, ino, i, e)
  {
    hide OnDisk, View, FreeBlocks, SlotCost, EmptyNode;
    SlotsSame(b.disk, b.table[dir], c.disk, c.table[dir]);
    assert Untouched(sb, c, d, dir);
    SlotsSame(c.disk, c.table[dir], d.disk, d.table[dir]);
    forall j | j in a.table && j != dir
      ensures Untouched(sb, a, d, j)
    {
      assert Untouched(sb, a, b, j);
      assert Untouched(sb, b, c, j);
      assert Untouched(sb, c, d, j);
    }
  }

  const MAX_FILE_OPEN: nat := 32
  const MAX_FILES_OPEN_PER_PROC: nat := 64

  /** get_free_slot_in_global. The table of open files is given by the number of the inode in each slot. */
  method GetFreeSlotInGlobal(fileTable: array<Option<u32>>) returns (idx: int)
    requires fileTable.Length == MAX_FILE_OPEN
    ensures idx == -1 <==> None !in fileTable[..]
    ensures idx != -1 ==> 0 <= idx < MAX_FILE_OPEN && fileTable[idx] == None && None !in fileTable[..idx]
  {
    for i := 0 to MAX_FILE_OPEN
      invariant None !in fileTable[..i]
    {
      if fileTable[i] == None {
        return i;
      }
    }
    assert fileTable[..] == fileTable[..MAX_FILE_OPEN];
    return -1;
  }

  /** The lowest free entry of a process's table of open files, after the three standard ones. */
  ghost predicate FirstFd(fds: seq<int>, fd: int) {
    3 <= fd < |fds| && fds[fd] == -1 && -1 !in fds[3..fd]
  }

  /** pcb_fd_install */
  method PcbFdInstall(fdTable: array<int>, globalFdIdx: nat) returns (fd: int)
    requires fdTable.Length == MAX_FILES_OPEN_PER_PROC
    modifies fdTable
    ensures fd == -1 <==> -1 !in old(fdTable[3..])
    ensures fd == -1 ==> fdTable[..] == old(fdTable[..])
    ensures fd != -1 ==> FirstFd(old(fdTable[..]), fd) && fdTable[..] == old(fdTable[..])[fd := globalFdIdx]
  {
    for i := 3 to MAX_FILES_OPEN_PER_PROC
      invariant -1 !in fdTable[3..i]
      invariant fdTable[..] == old(fdTable[..])
    {
      if fdTable[i] == -1 {
        assert fdTable[..][3..i] == fdTable[3..i];
        assert fdTable[3..][i - 3] == -1;
        fdTable[i] := globalFdIdx;
        return i;
      }
    }
    assert fdTable[3..] == fdTable[3..MAX_FILES_OPEN_PER_PROC];
    return -1;
  }

  /** file_create after the inode has its number and the file its slot: an entry in the directory, two records, the inode
      bitmap; or, if the directory is full, nothing. */
  method EnterFile(vol: Volume, dir: Inode, filename: seq<byte>, inodeNo: u32) returns (ok: bool, ghost slot: nat)
    requires Unsynced(vol, dir) && vol.ledger.pending == {inodeNo as nat} && inodeNo < MAX_FILES_PER_PART
    requires forall j :: j in vol.table ==> OnDisk(vol.sb, vol.disk, j, vol.table[j])
    requires |filename| < NAME_LEN && Shaped(vol.sb, vol.State()) && RoomForEntry(vol.sb, vol.State(), dir.iNo)
    requires dir.iSize + DIR_ENTRY_SIZE < 0x1_0000_0000
    modifies vol, vol.blockBitmap.bits, vol.ledger, dir
    ensures dir.iNo == old(dir.iNo) && dir.iNo in vol.table && dir.Shows(vol.table[dir.iNo])
    ensures Shaped(vol.sb, vol.State())
    ensures !ok ==> Unsynced(vol, dir) && vol.State() == old(vol.State()) && unchanged(vol.ledger)
    ensures !ok ==> LiveBelow(Slots(vol.disk, vol.table[dir.iNo]), SLOTS)
    ensures ok ==> vol.Valid() && FirstFree(Slots(old(vol.disk), old(vol.table[dir.iNo])), slot)
    ensures ok ==> Created(vol.sb, old(vol.State()), vol.State(), dir.iNo, inodeNo, slot,
                           CreateDirEntry(filename, inodeNo, FT_REGULAR))
  {
    hide Owned, BitsOf, Untouched, View, OnDisk, FreeBlocks, Record, EmptyNode, Added, Created, RoomForEntry, Slots, Pack;
    hide Volume.Core;
    ghost var a := vol.State();
    vol.CoreShaped();
    ok, slot := SyncDirEntry(vol, dir, CreateDirEntry(filename, inodeNo, FT_REGULAR));
    if !ok {
      return;
    }
    ghost var b := vol.State();
    SyncParent(vol, dir);
    ghost var c := vol.State();
    var newInode := new Inode(InodeRec(inodeNo, 0, seq(13, _ => 0)));
    newInode.iOpenCnt := 0;
    ShowsEmpty(newInode);
    vol.CoreShaped();
    BringToLife(vol, newInode);
    newInode.iOpenCnt := 1;
    CreatedInSteps(vol.sb, a, b, c, vol.State(), dir.iNo, inodeNo, slot, CreateDirEntry(filename, inodeNo, FT_REGULAR));
  }

  /** What keeps file_create from making a file */
  ghost predicate CannotCreate(img: Img, dir: nat, files: seq<Option<u32>>)
    requires dir in img.table && img.table[dir].Ok()
  {
    || (forall j :: 0 <= j < MAX_FILES_PER_PART ==> j in img.table)
    || None !in files
    || LiveBelow(Slots(img.disk, img.table[dir]), SLOTS)
  }

  /** The two tables of open files with the new one in them, as far as the process's has room */
  ghost predicate Opened(files: seq<Option<u32>>, files': seq<Option<u32>>, fds: seq<int>, fds': seq<int>, ino: u32, r: int)
    requires |fds| == MAX_FILES_OPEN_PER_PROC
  {
    exists g: nat :: g < |files| && files[g] == None && None !in files[..g] && files' == files[g := Some(ino)] &&
      (if -1 in fds[3..] then FirstFd(fds, r) && fds' == fds[r := g] else r == -1 && fds' == fds)
  }

  /** file_create: a number, a slot in the table of open files, the file, an entry in the process's table. `ino` is the new
      inode's number, or -1 if there is none. */
  method FileCreate(vol: Volume, dir: Inode, filename: seq<byte>, fileTable: array<Option<u32>>, fdTable: array<int>)
    returns (r: int, ghost ino: int, ghost slot: nat)
    requires vol.Valid() && dir.iNo in vol.table && dir.Shows(vol.table[dir.iNo])
    requires |filename| < NAME_LEN && Shaped(vol.sb, vol.State()) && RoomForEntry(vol.sb, vol.State(), dir.iNo)
    requires dir.iSize + DIR_ENTRY_SIZE < 0x1_0000_0000
    requires fileTable.Length == MAX_FILE_OPEN && fdTable.Length == MAX_FILES_OPEN_PER_PROC
    modifies vol, vol.blockBitmap.bits, vol.inodeBitmap.bits, vol.ledger, dir, fileTable, fdTable
    ensures vol.Valid() && dir.iNo == old(dir.iNo) && dir.iNo in vol.table && dir.Shows(vol.table[dir.iNo])
    ensures Shaped(vol.sb, vol.State())
    ensures ino == -1 <==> CannotCreate(old(vol.State()), dir.iNo, old(fileTable[..]))
    ensures ino == -1 ==> r == -1 && vol.State() == old(vol.State()) && vol.inodeBitmap.All() == old(vol.inodeBitmap.All())
    ensures ino == -1 ==> fileTable[..] == old(fileTable[..]) && fdTable[..] == old(fdTable[..])
    ensures ino != -1 ==> 0 <= ino < MAX_FILES_PER_PART && forall j :: 0 <= j < ino ==> j in old(vol.table)
    ensures ino != -1 ==> FirstFree(Slots(old(vol.disk), old(vol.table[dir.iNo])), slot)
    ensures ino != -1 ==>
              Created(vol.sb, old(vol.State()), vol.State(), dir.iNo, ino, slot, CreateDirEntry(filename, ino, FT_REGULAR))
    ensures ino != -1 ==> Opened(old(fileTable[..]), fileTable[..], old(fdTable[..]), fdTable[..], ino, r)
  {
    hide Owned, BitsOf, Untouched, View, OnDisk, FreeBlocks, EmptyNode, Created, RoomForEntry, Slots, FirstFd, CreateDirEntry;
    hide Volume.Core;
    ghost var a, files, fds := vol.State(), fileTable[..], fdTable[..];
    slot := 0;
    ValidUnsynced(vol, dir);
    var inodeNo := InodeBitmapAlloc(vol);
    if inodeNo == -1 {
      return -1, -1, 0;
    }
    var fdIdx := GetFreeSlotInGlobal(fileTable);
    if fdIdx == -1 {
      ReturnNumber(vol, inodeNo, dir);
      return -1, -1, 0;
    }
    fileTable[fdIdx] := Some(inodeNo);
    var ok;
    ok, slot := EnterFile(vol, dir, filename, inodeNo);
    if !ok {
      fileTable[fdIdx] := None;
      ReturnNumber(vol, inodeNo, dir);
      assert fileTable[..] == files;
      return -1, -1, 0;
    }
    ino := inodeNo;
    r := PcbFdInstall(fdTable, fdIdx);
    HasRoom(a, dir.iNo, files, fdIdx, slot);
    assert fileTable[..] == files[fdIdx := Some(inodeNo)];
    assert Opened(files, fileTable[..], fds, fdTable[..], inodeNo, r) by {
      assert fileTable[..fdIdx] == files[..fdIdx];
    }
  }

  lemma HasRoom(img: Img, dir: nat, files: seq<Option<u32>>, fdIdx: nat, slot: nat)
    requires dir in img.table && img.table[dir].Ok() && fdIdx < |files| && files[fdIdx] == None
    requires exists j :: 0 <= j < MAX_FILES_PER_PART && j !in img.table
    requires FirstFree(Slots(img.disk, img.table[dir]), slot)
    ensures !CannotCreate(img, dir, files)
  {
    hide Slots;
  }

  lemma ShowsEmpty(inode: Inode)
    requires inode.iSize == 0 && inode.iSectors == seq(13, _ => 0)
    ensures inode.Shows(EmptyNode())
  {
  }

  /** The rollback of file_create: the number is returned in memory, where it only was taken. */
  method ReturnNumber(vol: Volume, inodeNo: nat, ghost dir: Inode)
    requires Unsynced(vol, dir) && vol.ledger.pending == {inodeNo}
    requires inodeNo < MAX_FILES_PER_PART
    requires BitsOf(vol.ledger.synced) == vol.inodeBitmap.All()[inodeNo := false] && |vol.ledger.synced| == SECTOR_SIZE
    modifies vol.inodeBitmap.bits, vol.ledger
    ensures Unsynced(vol, dir) && vol.Settled() && vol.State() == old(vol.State())
    ensures vol.inodeBitmap.All() == old(vol.inodeBitmap.All())[inodeNo := false]
  {
    hide Owned, BitsOf, FreeBlocks;
    vol.inodeBitmap.Set(inodeNo, false);
    vol.ledger.pending := {};
    BitsOfInjective(vol.ledger.synced, vol.inodeBitmap.bits[..]);
  }

  /** The inode_sync of the directory in file_create, while a number is still outstanding. */
  method SyncParent(vol: Volume, dir: Inode)
    requires Unsynced(vol, dir)
    modifies vol`disk
    ensures vol.Core() && dir.Shows(vol.table[dir.iNo])
    ensures forall j :: j in vol.table ==> OnDisk(vol.sb, vol.disk, j, vol.table[j])
    ensures Shaped(vol.sb, old(vol.State())) && Shaped(vol.sb, vol.State())
    ensures OthersUntouched(vol.sb, old(vol.State()), vol.State(), dir.iNo)
    ensures forall b :: 0 <= b < BLOCKS ==>
              View(vol.disk, vol.table[dir.iNo], b) == View(old(vol.disk), vol.table[dir.iNo], b)
  {
    hide Owned, BitsOf, Untouched, View, TableLoaded, OnDisk, Record;
    ghost var a := vol.State();
    vol.CoreShaped();
    vol.InodeSync(dir);
    OwnedShaped(vol.sb, vol.State());
    OthersStayOnDisk(vol.sb, a, vol.State(), dir.iNo);
  }

  // --- sys_unlink ---

  /** What removing a file leaves: its entry, slot i of directory dir, is clear, inode ino is gone, no other inode is
      touched. */
  ghost predicate Removed(sb: SuperBlock, a: Img, b: Img, dir: nat, ino: nat, i: nat)
    requires Shaped(sb, a) && Shaped(sb, b) && dir in a.table && i < SLOTS
  {
    && b.table.Keys == a.table.Keys - {ino}
    && Shrank(sb, a, b, dir, i)
    && forall j :: j in a.table && j != dir && j != ino ==> Untouched(sb, a, b, j)
  }

  lemma RemovedInSteps(sb: SuperBlock, a: Img, b: Img, c: Img, dir: nat, ino: nat, i: nat)
    requires Shaped(sb, a) && Shaped(sb, b) && Shaped(sb, c) && dir in a.table && ino != dir && i < SLOTS
    requires Deleted(sb, a, b, dir, i) && OnlyLost(sb, b, c, ino)
    ensures Removed(sb, a, c, dir, ino, i)
  {
    hide OnDisk, View, FreeBlocks, LastOfBlock;
    assert Untouched(sb, b, c, dir);
    SlotsSame(b.disk, b.table[dir], c.disk, c.table[dir]);
    forall j | j in a.table && j != dir && j != ino
      ensures Untouched(sb, a, c, j)
    {
      assert Untouched(sb, a, b, j);
      assert Untouched(sb, b, c, j);
    }
  }

  /** The root directory's first block outlives the deletion of any entry but the root's own. */
  lemma RootStays(sb: SuperBlock, a: Img, b: Img, dir: nat, i: nat)
    requires Shaped(sb, a) && Shaped(sb, b) && dir in a.table && 0 in a.table && 0 < i < SLOTS
    requires Slots(a.disk, a.table[dir])[0].Live()
    requires Deleted(sb, a, b, dir, i)
    ensures 0 in b.table && b.table[0].sectors[0] == a.table[0].sectors[0]
  {
    hide View, FreeBlocks, Slots;
    if dir == 0 {
      assert b.table[0].BlockPtr(0) == a.table[0].BlockPtr(0);
    } else {
      assert Untouched(sb, a, b, 0);
    }
  }

  /** sys_unlink, once the file has been found and is not open: its entry goes, then its inode. */
  method Unlink(vol: Volume, dir: Inode, inodeNo: u32) returns (ghost slot: nat)
    requires vol.Valid() && dir.iNo in vol.table && dir.Shows(vol.table[dir.iNo])
    requires DirOk(vol.disk, vol.table[dir.iNo])
    requires NamedOnce(Slots(vol.disk, vol.table[dir.iNo]), inodeNo)
    requires exists i :: 0 <= i < SLOTS && NamesInode(Slots(vol.disk, vol.table[dir.iNo]), i, inodeNo)
    requires Slots(vol.disk, vol.table[dir.iNo])[0].Live()
    requires !NamesInode(Slots(vol.disk, vol.table[dir.iNo]), 0, inodeNo)
    requires inodeNo in vol.table && inodeNo != dir.iNo && inodeNo != 0
    requires 0 in vol.table && vol.table[0].Ok() && vol.table[0].sectors[0] == vol.sb.dataStartLba
    modifies vol, vol.blockBitmap.bits, vol.inodeBitmap.bits, vol.ledger, dir
    ensures vol.Valid() && dir.iNo == old(dir.iNo) && dir.iNo in vol.table && dir.Shows(vol.table[dir.iNo])
    ensures Shaped(vol.sb, old(vol.State())) && Shaped(vol.sb, vol.State())
    ensures slot < SLOTS && NamesInode(Slots(old(vol.disk), old(vol.table[dir.iNo])), slot, inodeNo)
    ensures Removed(vol.sb, old(vol.State()), vol.State(), dir.iNo, inodeNo, slot)
  {
    hide Owned, BitsOf, Untouched, View, OnDisk, FreeBlocks, Slots, Deleted, Removed, DirOk, NamedOnce;
    hide Volume.Core;
    ghost var a, ino := vol.State(), dir.iNo;
    vol.CoreShaped();
    ghost var i :| 0 <= i < SLOTS && NamesInode(Slots(vol.disk, vol.table[dir.iNo]), i, inodeNo);
    var ok;
    ok, slot := DeleteDirEntry(vol, dir, inodeNo);
    ghost var b := vol.State();
    RootStays(vol.sb, a, b, ino, slot);
    DeletedKeys(vol.sb, a, b, ino, slot);
    ghost var node := vol.table[ino];
    InodeRelease(vol, inodeNo);
    RemovedInSteps(vol.sb, a, b, vol.State(), ino, inodeNo, slot);
  }

  lemma DeletedKeys(sb: SuperBlock, a: Img, b: Img, dir: nat, i: nat)
    requires Shaped(sb, a) && Shaped(sb, b) && dir in a.table && i < SLOTS
    requires Deleted(sb, a, b, dir, i)
    ensures b.table.Keys == a.table.Keys
  {
  }

  // --- Creating a file and removing it again ---

  /** The directory's node after an entry is added and the same entry deleted is the node it was. */
  lemma AddThenDelete(sb: SuperBlock, a: Img, b: Img, c: Img, dir: nat, i: nat, e: DirEntry)
    requires Shaped(sb, a) && Shaped(sb, b) && Shaped(sb, c) && dir in a.table && i < SLOTS
    requires DirOk(a.disk, a.table[dir]) && TableLoaded(a.disk, a.table[dir])
    requires FirstFree(Slots(a.disk, a.table[dir]), i) && e.Live()
    requires Grew(sb, a, b, dir, i, e) && Shrank(sb, b, c, dir, i)
    ensures dir in c.table && c.table[dir] == a.table[dir]
    ensures Slots(c.disk, c.table[dir]) == Slots(a.disk, a.table[dir])
  {
    hide View, FreeBlocks, Slots, SlotCost, NamesOk;
    var n, m, k, blk := a.table[dir], b.table[dir], c.table[dir], i / PER_SECTOR;
    var s := Slots(a.disk, n);
    var t := Slots(b.disk, m);
    if n.BlockPtr(blk) == 0 {
      MissingBlockAllFree(a.disk, n, blk);
      assert LastOfBlock(t, i);
    } else {
      var j :| blk * PER_SECTOR <= j < blk * PER_SECTOR + PER_SECTOR && s[j].Live();
      assert t[j].Live() && j != i;
      assert !LastOfBlock(t, i);
    }
    assert forall q :: 0 <= q < BLOCKS ==> k.BlockPtr(q) == n.BlockPtr(q);
    SameNode(n, k);
    assert Slots(c.disk, k) == s;
  }

  /** Nodes with the same size, blocks and table sector are the same. */
  lemma SameNode(n: Node, k: Node)
    requires n.Ok() && k.Ok() && n.size == k.size
    requires forall q :: 0 <= q < BLOCKS ==> k.BlockPtr(q) == n.BlockPtr(q)
    ensures k.entries == n.entries
    ensures k.sectors[12] == n.sectors[12] ==> k == n
  {
    forall q | 0 <= q < ENTRIES
      ensures k.entries[q] == n.entries[q]
    {
      assert k.BlockPtr(12 + q) == n.BlockPtr(12 + q);
    }
    forall q | 0 <= q < 12
      ensures k.sectors[q] == n.sectors[q]
    {
      assert k.BlockPtr(q) == n.BlockPtr(q);
    }
  }

  /** Creating a file and unlinking it brings back every inode's state, the directory's entries and the block bitmap. */
  lemma CreateThenUnlink(sb: SuperBlock, a: Img, b: Img, c: Img, dir: nat, ino: u32, i: nat, j: nat, filename: seq<byte>)
    requires Owned(sb, a) && Shaped(sb, b) && Owned(sb, c) && dir in a.table && i < SLOTS && j < SLOTS && ino != dir
    requires DirOk(a.disk, a.table[dir]) && TableLoaded(a.disk, a.table[dir])
    requires |filename| < NAME_LEN && FirstFree(Slots(a.disk, a.table[dir]), i)
    requires forall k :: 0 <= k < SLOTS ==> !NamesInode(Slots(a.disk, a.table[dir]), k, ino)
    requires Created(sb, a, b, dir, ino, i, CreateDirEntry(filename, ino, FT_REGULAR))
    requires NamesInode(Slots(b.disk, b.table[dir]), j, ino) && Removed(sb, b, c, dir, ino, j)
    ensures c.table == a.table
    ensures c.bits == a.bits
    ensures Slots(c.disk, c.table[dir]) == Slots(a.disk, a.table[dir])
    ensures forall k :: k in a.table && k != dir ==> Untouched(sb, a, c, k)
  {
    hide Owned, View, FreeBlocks, Slots, OnDisk, DirOk, Grew, Shrank;
    var e := CreateDirEntry(filename, ino, FT_REGULAR);
    OwnedShaped(sb, a);
    OwnedShaped(sb, c);
    GrewSlots(sb, a, b, dir, i, e);
    assert !NamesInode(Slots(a.disk, a.table[dir]), j, ino);
    assert j == i;
    AddThenDelete(sb, a, b, c, dir, i, e);
    forall k | k in a.table && k != dir
      ensures Untouched(sb, a, c, k) && c.table[k] == a.table[k]
    {
      assert Untouched(sb, a, b, k) && Untouched(sb, b, c, k);
    }
    assert c.table.Keys == a.table.Keys;
    SamePointersSameBits(sb, a, c);
  }

  lemma GrewSlots(sb: SuperBlock, a: Img, b: Img, dir: nat, i: nat, e: DirEntry)
    requires Shaped(sb, a) && Shaped(sb, b) && dir in a.table && i < SLOTS
    requires Grew(sb, a, b, dir, i, e)
    ensures Slots(b.disk, b.table[dir]) == Slots(a.disk, a.table[dir])[i := e]
  {
  }
}
