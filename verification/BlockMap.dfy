/** How inodes own sectors: 13 pointers in the inode and 128 more in the sector the last of them names. */
module BlockMap {
  import opened Words
  import opened Layout
  import opened InodeTable
  import opened Bitmaps

  const DIRECT: nat := 12
  const ENTRIES: nat := 128
  const BLOCKS: nat := 140
  const POINTERS: nat := 141
  const MAX_FILE_SIZE: nat := 71680

  /** One inode's persistent state: its size, its i_sectors and the table of 128 that i_sectors[12] names. */
  datatype Node = Node(size: u32, sectors: seq<u32>, entries: seq<u32>) {
    predicate Ok() {
      |sectors| == DIRECT + 1 && |entries| == ENTRIES
    }

    function Ptr(p: nat): u32
      requires Ok() && p < POINTERS
    {
      if p < 13 then sectors[p] else entries[p - 13]
    }

    function WithPtr(p: nat, l: u32): (n: Node)
      requires Ok() && p < POINTERS
      ensures n.Ok() && n.size == size
      ensures forall q: nat :: q < POINTERS ==> n.Ptr(q) == if q == p then l else Ptr(q)
    {
      if p < 13 then this.(sectors := sectors[p := l]) else this.(entries := entries[p - 13 := l])
    }

    /** all_blocks[b] */
    function BlockPtr(b: nat): u32
      requires Ok() && b < BLOCKS
    {
      Ptr(PosOf(b))
    }
  }

  /** The pointer position that serves block b of a file: position 12 is the indirect table's own. */
  function PosOf(b: nat): (p: nat)
    ensures b < BLOCKS ==> p < POINTERS
  {
    if b < DIRECT then b else b + 1
  }

  /** What block b of a file holds. A block without a sector counts as zeros, which is what a write finds there. */
  function View(disk: seq<Sector>, n: Node, b: nat): Sector
    requires n.Ok() && b < BLOCKS
  {
    if n.BlockPtr(b) == 0 then Zeros() else At(disk, n.BlockPtr(b))
  }

  lemma ViewAt(disk: seq<Sector>, n: Node, b: nat)
    requires n.Ok() && b < BLOCKS
    ensures n.BlockPtr(b) != 0 ==> View(disk, n, b) == At(disk, n.BlockPtr(b))
    ensures n.BlockPtr(b) == 0 ==> View(disk, n, b) == Zeros()
  {
  }

  /** All 140 blocks of a file in a row. */
  ghost function Flat(disk: seq<Sector>, n: Node): (bs: seq<byte>)
    requires n.Ok()
    ensures |bs| == MAX_FILE_SIZE
  {
    seq(MAX_FILE_SIZE, k requires 0 <= k < MAX_FILE_SIZE => View(disk, n, k / SECTOR_SIZE)[k % SECTOR_SIZE])
  }

  /** Which pointer of which inode holds a sector. */
  datatype Owner = Owner(ino: nat, pos: nat)

  /** The state of a mounted partition: sectors, block bitmap, live inodes and who owns which sector. */
  datatype Img = Img(disk: seq<Sector>, bits: seq<bool>, table: map<nat, Node>, owner: map<int, Owner>)

  ghost predicate Shaped(sb: SuperBlock, img: Img) {
    && WellFormed(sb)
    && sb.partLbaBase + sb.secCnt <= |img.disk| <= 0x1_0000_0000
    && |img.bits| == BITS_PER_SECTOR * sb.blockBitmapSects
    && forall j :: j in img.table ==> j < MAX_FILES_PER_PART && img.table[j].Ok()
  }

  /** The map `owner` is the inverse of "pointer p of inode j", for pointers that are not zero. */
  ghost predicate PointersOwned(img: Img)
    requires forall j :: j in img.table ==> img.table[j].Ok()
  {
    forall j, p :: j in img.table && 0 <= p < POINTERS && img.table[j].Ptr(p) != 0 ==>
      img.table[j].Ptr(p) in img.owner && img.owner[img.table[j].Ptr(p)] == Owner(j, p)
  }

  /** Every owned sector is in the data area, its bit is set and some pointer names it. */
  ghost predicate OwnersPoint(sb: SuperBlock, img: Img)
    requires Shaped(sb, img)
  {
    forall l :: l in img.owner ==>
      && sb.dataStartLba <= l < sb.dataStartLba + Usable(sb)
      && img.bits[l - sb.dataStartLba]
      && img.owner[l].ino in img.table
      && img.owner[l].pos < POINTERS
      && img.table[img.owner[l].ino].Ptr(img.owner[l].pos) == l
  }

  /** No bit is set for a sector that nobody owns. */
  ghost predicate NoLeak(sb: SuperBlock, img: Img)
    requires Shaped(sb, img)
  {
    forall l :: l !in img.owner && sb.dataStartLba <= l < sb.dataStartLba + |img.bits| ==>
      !img.bits[l - sb.dataStartLba]
  }

  /** Every pointer that is not zero is the only pointer to its sector, the sector is in the data area and its bit is
      set; and no bit is set for any other sector. */
  ghost predicate Owned(sb: SuperBlock, img: Img) {
    Shaped(sb, img) && PointersOwned(img) && OwnersPoint(sb, img) && NoLeak(sb, img)
  }

  lemma OwnedShaped(sb: SuperBlock, img: Img)
    requires Owned(sb, img)
    ensures Shaped(sb, img)
  {
  }

  /** What `Owned` says about pointers, without the inverse map: no two pointers share a sector, every sector pointed to
      lies in the partition's data area with its bit set, and a set bit means that some pointer names that sector. */
  lemma OwnedMeaning(sb: SuperBlock, img: Img)
    requires Owned(sb, img)
    ensures forall j, p, k, q | j in img.table && k in img.table && 0 <= p < POINTERS && 0 <= q < POINTERS ::
              img.table[j].Ptr(p) == img.table[k].Ptr(q) != 0 ==> j == k && p == q
    ensures forall j, p :: j in img.table && 0 <= p < POINTERS && img.table[j].Ptr(p) != 0 ==>
              var l := img.table[j].Ptr(p);
              sb.dataStartLba <= l < sb.partLbaBase + sb.secCnt && img.bits[l - sb.dataStartLba]
    ensures forall i :: 0 <= i < |img.bits| && img.bits[i] ==>
              exists j, p :: j in img.table && 0 <= p < POINTERS && img.table[j].Ptr(p) == sb.dataStartLba + i
  {
    forall i | 0 <= i < |img.bits| && img.bits[i]
      ensures exists j, p :: j in img.table && 0 <= p < POINTERS && img.table[j].Ptr(p) == sb.dataStartLba + i
    {
      var l := sb.dataStartLba + i;
      assert l in img.owner by {
        assert img.bits[l - sb.dataStartLba];
      }
      var o := img.owner[l];
      assert img.table[o.ino].Ptr(o.pos) == sb.dataStartLba + i;
    }
  }

  /** A pointer that is not zero leads to a data sector that only it owns. */
  lemma PtrOwned(sb: SuperBlock, img: Img, ino: nat, pos: nat)
    requires Owned(sb, img) && ino in img.table && pos < POINTERS && img.table[ino].Ptr(pos) != 0
    ensures var l := img.table[ino].Ptr(pos);
            && l in img.owner && img.owner[l] == Owner(ino, pos)
            && sb.dataStartLba <= l < sb.dataStartLba + Usable(sb)
            && l < |img.disk| && l - sb.dataStartLba < |img.bits| && img.bits[l - sb.dataStartLba]
  {
  }

  /** Ownership does not depend on what the sectors hold. */
  lemma OwnedOfDisk(sb: SuperBlock, img: Img, disk': seq<Sector>)
    requires Owned(sb, img) && |disk'| == |img.disk|
    ensures Owned(sb, img.(disk := disk'))
  {
  }

  /** The table of indirect pointers on disk agrees with the inode's state. */
  ghost predicate TableLoaded(disk: seq<Sector>, n: Node)
    requires n.Ok()
  {
    if n.sectors[12] == 0 then n.entries == seq(ENTRIES, _ => 0)
    else At(disk, n.sectors[12]) == Pack(n.entries)
  }

  /** The disk holds exactly inode j's state: what an uncached inode_open followed by reading the table gives. */
  ghost predicate OnDisk(sb: SuperBlock, disk: seq<Sector>, j: nat, n: Node)
    requires n.Ok() && j < MAX_FILES_PER_PART
  {
    && Record(disk, sb, j) == Encode(InodeRec(j, n.size, n.sectors))
    && TableLoaded(disk, n)
  }

  /** Inode j, its contents and its on-disk state are the same in both states. */
  ghost predicate Untouched(sb: SuperBlock, img: Img, img': Img, j: nat)
    requires Shaped(sb, img) && Shaped(sb, img')
    requires j in img.table
  {
    && j in img'.table
    && img'.table[j] == img.table[j]
    && (forall b :: 0 <= b < BLOCKS ==> View(img'.disk, img'.table[j], b) == View(img.disk, img.table[j], b))
    && (OnDisk(sb, img.disk, j, img.table[j]) ==> OnDisk(sb, img'.disk, j, img'.table[j]))
  }

  lemma UntouchedViews(sb: SuperBlock, img: Img, img': Img, j: nat)
    requires Shaped(sb, img) && Shaped(sb, img') && j in img.table && Untouched(sb, img, img', j)
    ensures j in img'.table && img'.table[j] == img.table[j]
    ensures forall b :: 0 <= b < BLOCKS ==> View(img'.disk, img.table[j], b) == View(img.disk, img.table[j], b)
    ensures OnDisk(sb, img.disk, j, img.table[j]) ==> OnDisk(sb, img'.disk, j, img.table[j])
  {
  }

  /** Nothing but inode ino changes. */
  ghost predicate OthersUntouched(sb: SuperBlock, img: Img, img': Img, ino: nat)
    requires Shaped(sb, img) && Shaped(sb, img')
  {
    && img'.table.Keys == img.table.Keys
    && forall j :: j in img.table && j != ino ==> Untouched(sb, img, img', j)
  }

  lemma OthersUntouchedReflexive(sb: SuperBlock, a: Img, ino: nat)
    requires Shaped(sb, a)
    ensures OthersUntouched(sb, a, a, ino)
  {
  }

  /** If the disk was up to date, all inodes but ino are untouched and ino's state is on disk, the disk is up to date. */
  lemma AllOnDisk(sb: SuperBlock, a: Img, b: Img, ino: nat)
    requires Shaped(sb, a) && Shaped(sb, b) && ino in b.table
    requires OthersUntouched(sb, a, b, ino)
    requires forall j :: j in a.table && j != ino ==> OnDisk(sb, a.disk, j, a.table[j])
    requires OnDisk(sb, b.disk, ino, b.table[ino])
    ensures forall j :: j in b.table ==> OnDisk(sb, b.disk, j, b.table[j])
  {
    forall j | j in b.table
      ensures OnDisk(sb, b.disk, j, b.table[j])
    {
      if j != ino {
        assert Untouched(sb, a, b, j);
      }
    }
  }

  /** Inodes other than ino that were up to date on disk still are. */
  lemma OthersStayOnDisk(sb: SuperBlock, a: Img, b: Img, ino: nat)
    requires Shaped(sb, a) && Shaped(sb, b) && OthersUntouched(sb, a, b, ino)
    requires forall j :: j in a.table && j != ino ==> OnDisk(sb, a.disk, j, a.table[j])
    ensures forall j :: j in b.table && j != ino ==> OnDisk(sb, b.disk, j, b.table[j])
  {
    forall j | j in b.table && j != ino
      ensures OnDisk(sb, b.disk, j, b.table[j])
    {
      assert Untouched(sb, a, b, j);
    }
  }

  lemma OthersUntouchedTransitive(sb: SuperBlock, a: Img, b: Img, c: Img, ino: nat)
    requires Shaped(sb, a) && Shaped(sb, b) && Shaped(sb, c)
    requires OthersUntouched(sb, a, b, ino) && OthersUntouched(sb, b, c, ino)
    ensures OthersUntouched(sb, a, c, ino)
  {
    forall j | j in a.table && j != ino
      ensures Untouched(sb, a, c, j)
    {
      assert Untouched(sb, a, b, j) && Untouched(sb, b, c, j);
    }
  }

  /** The sectors that inode j points to, and its record, are all that matters to it. */
  lemma UntouchedFrame(sb: SuperBlock, img: Img, img': Img, j: nat)
    requires Shaped(sb, img) && Shaped(sb, img') && j in img.table && j in img'.table
    requires img'.table[j] == img.table[j]
    requires Record(img'.disk, sb, j) == Record(img.disk, sb, j)
    requires forall p :: 0 <= p < POINTERS && img.table[j].Ptr(p) != 0 ==>
               At(img'.disk, img.table[j].Ptr(p)) == At(img.disk, img.table[j].Ptr(p))
    ensures Untouched(sb, img, img', j)
  {
    var n := img.table[j];
    assert n.Ptr(12) == n.sectors[12];
    forall b | 0 <= b < BLOCKS
      ensures View(img'.disk, n, b) == View(img.disk, n, b)
    {
      assert n.Ptr(PosOf(b)) == n.BlockPtr(b);
    }
  }

  // --- Writing a sector that an inode owns ---

  lemma WriteOthers(sb: SuperBlock, img: Img, ino: nat, pos: nat, s: Sector, j: nat)
    requires Owned(sb, img) && ino in img.table && pos < POINTERS && img.table[ino].Ptr(pos) != 0
    requires j in img.table && img.table[ino].Ptr(pos) < |img.disk|
    ensures var img' := img.(disk := img.disk[img.table[ino].Ptr(pos) := s]);
            && Shaped(sb, img')
            && Record(img'.disk, sb, j) == Record(img.disk, sb, j)
            && (j != ino ==> Untouched(sb, img, img', j))
  {
    hide Owned, Record, Untouched;
    OwnedShaped(sb, img);
    PtrOwned(sb, img, ino, pos);
    var l := img.table[ino].Ptr(pos);
    var img' := img.(disk := img.disk[l := s]);
    RecordFrame(img.disk, img'.disk, sb, j);
    if j != ino {
      forall p | 0 <= p < POINTERS && img.table[j].Ptr(p) != 0
        ensures At(img'.disk, img.table[j].Ptr(p)) == At(img.disk, img.table[j].Ptr(p))
      {
        PtrOwned(sb, img, j, p);
      }
      UntouchedFrame(sb, img, img', j);
    }
  }

  lemma WriteSelf(sb: SuperBlock, img: Img, ino: nat, pos: nat, s: Sector)
    requires Owned(sb, img) && ino in img.table && pos < POINTERS && img.table[ino].Ptr(pos) != 0
    requires img.table[ino].Ok() && img.table[ino].Ptr(pos) < |img.disk|
    ensures var n := img.table[ino]; var disk' := img.disk[n.Ptr(pos) := s];
            && (pos != 12 && TableLoaded(img.disk, n) ==> TableLoaded(disk', n))
            && (forall b :: 0 <= b < BLOCKS ==>
                  View(disk', n, b) == if PosOf(b) == pos then s else View(img.disk, n, b))
  {
    hide Owned;
    PtrOwned(sb, img, ino, pos);
    var n := img.table[ino];
    var l := n.Ptr(pos);
    var disk' := img.disk[l := s];
    forall b | 0 <= b < BLOCKS
      ensures View(disk', n, b) == if PosOf(b) == pos then s else View(img.disk, n, b)
    {
      if n.Ptr(PosOf(b)) != 0 {
        PtrOwned(sb, img, ino, PosOf(b));
      }
    }
    if n.Ptr(12) != 0 {
      PtrOwned(sb, img, ino, 12);
    }
  }

  /** Writing a sector that inode ino owns changes one of its blocks, or its table, and nothing else. */
  lemma WriteOwned(sb: SuperBlock, img: Img, ino: nat, pos: nat, s: Sector)
    requires Owned(sb, img) && ino in img.table && pos < POINTERS && img.table[ino].Ptr(pos) != 0
    ensures img.table[ino].Ptr(pos) < |img.disk|
    ensures var n := img.table[ino]; var img' := img.(disk := img.disk[n.Ptr(pos) := s]);
            && Owned(sb, img')
            && OthersUntouched(sb, img, img', ino)
            && Record(img'.disk, sb, ino) == Record(img.disk, sb, ino)
            && (pos != 12 && TableLoaded(img.disk, n) ==> TableLoaded(img'.disk, n))
            && (forall b :: 0 <= b < BLOCKS ==>
                  View(img'.disk, n, b) == if PosOf(b) == pos then s else View(img.disk, n, b))
  {
    hide Owned, Untouched, View, TableLoaded, Record;
    OwnedShaped(sb, img);
    PtrOwned(sb, img, ino, pos);
    var n := img.table[ino];
    var img' := img.(disk := img.disk[n.Ptr(pos) := s]);
    OwnedOfDisk(sb, img, img'.disk);
    WriteSelf(sb, img, ino, pos, s);
    forall j | j in img.table
      ensures Record(img'.disk, sb, j) == Record(img.disk, sb, j)
      ensures j != ino ==> Untouched(sb, img, img', j)
    {
      WriteOthers(sb, img, ino, pos, s, j);
    }
  }

  // --- Giving a free sector to a pointer, taking it back ---

  /** Changing inode ino in memory touches no other inode. */
  lemma PointerFrame(sb: SuperBlock, img: Img, img': Img, ino: nat)
    requires Shaped(sb, img) && Shaped(sb, img') && ino in img.table
    requires img'.disk == img.disk
    requires img'.table.Keys == img.table.Keys
    requires forall j :: j in img.table && j != ino ==> img'.table[j] == img.table[j]
    ensures OthersUntouched(sb, img, img', ino)
  {
    forall j | j in img.table && j != ino
      ensures Untouched(sb, img, img', j)
    {
      UntouchedFrame(sb, img, img', j);
    }
  }

  /** Changing one pointer of an inode changes at most the block behind it. */
  lemma PointerViews(disk: seq<Sector>, n: Node, pos: nat, l: u32)
    requires n.Ok() && pos < POINTERS
    ensures forall b :: 0 <= b < BLOCKS && PosOf(b) != pos ==> View(disk, n.WithPtr(pos, l), b) == View(disk, n, b)
  {
    forall b | 0 <= b < BLOCKS && PosOf(b) != pos
      ensures View(disk, n.WithPtr(pos, l), b) == View(disk, n, b)
    {
      assert n.WithPtr(pos, l).Ptr(PosOf(b)) == n.Ptr(PosOf(b));
    }
  }

  function Grant(sb: SuperBlock, img: Img, ino: nat, pos: nat, l: u32): Img
    requires ino in img.table && img.table[ino].Ok() && pos < POINTERS
    requires sb.dataStartLba <= l < sb.dataStartLba + |img.bits|
  {
    img.(bits := img.bits[l - sb.dataStartLba := true],
         table := img.table[ino := img.table[ino].WithPtr(pos, l)],
         owner := img.owner[l := Owner(ino, pos)])
  }

  lemma GrantPointers(sb: SuperBlock, img: Img, ino: nat, pos: nat, l: u32)
    requires Owned(sb, img) && ino in img.table && pos < POINTERS && img.table[ino].Ptr(pos) == 0
    requires sb.dataStartLba <= l < sb.dataStartLba + Usable(sb) && !img.bits[l - sb.dataStartLba]
    ensures l !in img.owner && Shaped(sb, Grant(sb, img, ino, pos, l))
    ensures PointersOwned(Grant(sb, img, ino, pos, l))
  {
    var img' := Grant(sb, img, ino, pos, l);
    assert l !in img.owner;
    forall j, p | j in img'.table && 0 <= p < POINTERS && img'.table[j].Ptr(p) != 0
      ensures img'.table[j].Ptr(p) in img'.owner && img'.owner[img'.table[j].Ptr(p)] == Owner(j, p)
    {
      if j != ino || p != pos {
        assert img'.table[j].Ptr(p) == img.table[j].Ptr(p);
      }
    }
  }

  lemma GrantOwned(sb: SuperBlock, img: Img, ino: nat, pos: nat, l: u32)
    requires Owned(sb, img) && ino in img.table && pos < POINTERS && img.table[ino].Ptr(pos) == 0
    requires sb.dataStartLba <= l < sb.dataStartLba + Usable(sb) && !img.bits[l - sb.dataStartLba]
    ensures l !in img.owner && Owned(sb, Grant(sb, img, ino, pos, l))
  {
    hide PointersOwned;
    GrantPointers(sb, img, ino, pos, l);
    var img' := Grant(sb, img, ino, pos, l);
    forall k | k in img'.owner
      ensures img'.owner[k].ino in img'.table && img'.owner[k].pos < POINTERS
      ensures img'.table[img'.owner[k].ino].Ptr(img'.owner[k].pos) == k
    {
      if k != l {
        assert img.table[img.owner[k].ino].Ptr(img.owner[k].pos) == k;
      }
    }
  }

  function Revoke(sb: SuperBlock, img: Img, ino: nat, pos: nat): Img
    requires ino in img.table && img.table[ino].Ok() && pos < POINTERS
    requires sb.dataStartLba <= img.table[ino].Ptr(pos) < sb.dataStartLba + |img.bits|
  {
    var l := img.table[ino].Ptr(pos);
    img.(bits := img.bits[l - sb.dataStartLba := false],
         table := img.table[ino := img.table[ino].WithPtr(pos, 0)],
         owner := img.owner - {l})
  }

  lemma RevokePointers(sb: SuperBlock, img: Img, ino: nat, pos: nat)
    requires Owned(sb, img) && ino in img.table && pos < POINTERS && img.table[ino].Ptr(pos) != 0
    ensures var l := img.table[ino].Ptr(pos);
            && img.owner[l] == Owner(ino, pos)
            && sb.dataStartLba <= l < sb.dataStartLba + Usable(sb) && img.bits[l - sb.dataStartLba]
    ensures var img' := Revoke(sb, img, ino, pos);
            Shaped(sb, img') && PointersOwned(img')
  {
    var l := img.table[ino].Ptr(pos);
    assert img.owner[l] == Owner(ino, pos);
    var img' := Revoke(sb, img, ino, pos);
    forall j, p | j in img'.table && 0 <= p < POINTERS && img'.table[j].Ptr(p) != 0
      ensures img'.table[j].Ptr(p) in img'.owner && img'.owner[img'.table[j].Ptr(p)] == Owner(j, p)
    {
      assert img'.table[j].Ptr(p) == img.table[j].Ptr(p);
    }
  }

  lemma RevokeOwned(sb: SuperBlock, img: Img, ino: nat, pos: nat)
    requires Owned(sb, img) && ino in img.table && pos < POINTERS && img.table[ino].Ptr(pos) != 0
    ensures var l := img.table[ino].Ptr(pos);
            sb.dataStartLba <= l < sb.dataStartLba + Usable(sb) && img.bits[l - sb.dataStartLba]
    ensures Owned(sb, Revoke(sb, img, ino, pos))
  {
    hide PointersOwned;
    RevokePointers(sb, img, ino, pos);
    var l := img.table[ino].Ptr(pos);
    var img' := Revoke(sb, img, ino, pos);
    forall k | k in img'.owner
      ensures img'.table[img'.owner[k].ino].Ptr(img'.owner[k].pos) == k
    {
      assert img.table[img.owner[k].ino].Ptr(img.owner[k].pos) == k != l;
    }
  }

  /** A new size touches no pointer, no block and no other inode. */
  lemma ResizeOwned(sb: SuperBlock, img: Img, ino: nat, size: u32)
    requires Owned(sb, img) && ino in img.table
    ensures var n := img.table[ino].(size := size);
            var img' := img.(table := img.table[ino := n]);
            && Owned(sb, img')
            && OthersUntouched(sb, img, img', ino)
            && (forall b :: 0 <= b < BLOCKS ==> View(img'.disk, n, b) == View(img.disk, img.table[ino], b))
            && (TableLoaded(img.disk, img.table[ino]) ==> TableLoaded(img'.disk, n))
  {
    var n := img.table[ino].(size := size);
    var img' := img.(table := img.table[ino := n]);
    assert forall p: nat :: p < POINTERS ==> n.Ptr(p) == img.table[ino].Ptr(p);
    assert PointersOwned(img') && OwnersPoint(sb, img');
    PointerFrame(sb, img, img', ino);
  }

  // --- Writing sectors that no inode owns ---

  /** Changes confined to the sectors before the inode table, where the bitmaps are, touch no inode. */
  lemma MetadataWrite(sb: SuperBlock, img: Img, disk': seq<Sector>)
    requires Owned(sb, img) && |disk'| == |img.disk|
    requires forall l :: sb.inodeTableLba <= l < |img.disk| ==> disk'[l] == img.disk[l]
    ensures Owned(sb, img.(disk := disk'))
    ensures forall j :: j in img.table ==> Untouched(sb, img, img.(disk := disk'), j)
    ensures forall j :: j in img.table && TableLoaded(img.disk, img.table[j]) ==> TableLoaded(disk', img.table[j])
  {
    hide Owned, Untouched;
    OwnedShaped(sb, img);
    OwnedOfDisk(sb, img, disk');
    var img' := img.(disk := disk');
    forall j | j in img.table
      ensures Untouched(sb, img, img', j)
      ensures TableLoaded(img.disk, img.table[j]) ==> TableLoaded(disk', img.table[j])
    {
      forall p | 0 <= p < POINTERS && img.table[j].Ptr(p) != 0
        ensures At(disk', img.table[j].Ptr(p)) == At(img.disk, img.table[j].Ptr(p))
      {
        PtrOwned(sb, img, j, p);
      }
      assert img.table[j].Ptr(12) == img.table[j].sectors[12];
      RecordFrame(img.disk, disk', sb, j);
      UntouchedFrame(sb, img, img', j);
    }
  }

  /** inode_sync brings inode ino's record up to date and touches nothing else. */
  lemma SyncOwned(sb: SuperBlock, img: Img, ino: nat)
    requires Owned(sb, img) && ino in img.table
    ensures var n := img.table[ino];
            var img' := img.(disk := PutRecord(img.disk, sb, ino, Encode(InodeRec(ino, n.size, n.sectors))));
            && Owned(sb, img')
            && OthersUntouched(sb, img, img', ino)
            && (TableLoaded(img.disk, n) ==> OnDisk(sb, img'.disk, ino, n))
            && (forall b :: 0 <= b < BLOCKS ==> View(img'.disk, n, b) == View(img.disk, n, b))
  {
    hide Owned, Untouched;
    OwnedShaped(sb, img);
    var n := img.table[ino];
    var rec := Encode(InodeRec(ino, n.size, n.sectors));
    var disk' := PutRecord(img.disk, sb, ino, rec);
    var img' := img.(disk := disk');
    OwnedOfDisk(sb, img, disk');
    forall j, p | j in img.table && 0 <= p < POINTERS && img.table[j].Ptr(p) != 0
      ensures At(disk', img.table[j].Ptr(p)) == At(img.disk, img.table[j].Ptr(p))
    {
      PtrOwned(sb, img, j, p);
    }
    forall j | j in img.table && j != ino
      ensures Untouched(sb, img, img', j)
    {
      RecordAfterPut(img.disk, sb, ino, rec, j);
      UntouchedFrame(sb, img, img', j);
    }
    RecordAfterPut(img.disk, sb, ino, rec, ino);
    assert n.Ptr(12) == n.sectors[12];
    forall b | 0 <= b < BLOCKS
      ensures View(disk', n, b) == View(img.disk, n, b)
    {
      assert n.Ptr(PosOf(b)) == n.BlockPtr(b);
    }
  }
}
