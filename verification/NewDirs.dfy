/** The directory that partition_format writes for the root and alloc_directory_inode for any other: "." and "..". */
module NewDirs {
  import opened Words
  import opened Layout
  import opened InodeTable
  import opened BlockMap
  import opened DirEntries
  import opened Directories

  const DOT: byte := 46

  function DotEntry(ino: u32): (e: DirEntry)
    ensures e.Ok()
  {
    DirEntry(seq(NAME_LEN, k => if k == 0 then DOT else 0), ino, FT_DIRECTORY)
  }

  function DotDotEntry(parent: u32): (e: DirEntry)
    ensures e.Ok()
  {
    DirEntry(seq(NAME_LEN, k => if k < 2 then DOT else 0), parent, FT_DIRECTORY)
  }

  /** A directory's first block when it is made. */
  function DirSector(ino: u32, parent: u32): Sector {
    PutEntry(PutEntry(Zeros(), 0, DotEntry(ino)), 1, DotDotEntry(parent))
  }

  /** The inode of a directory with two entries in one sector. */
  function DirNode(lba: u32): (n: Node)
    ensures n.Ok()
    ensures forall p: nat :: p < POINTERS ==> n.Ptr(p) == if p == 0 then lba else 0
  {
    Node(2 * DIR_ENTRY_SIZE, seq(13, k => if k == 0 then lba else 0), seq(ENTRIES, _ => 0))
  }

  lemma DirSectorEntries(ino: u32, parent: u32)
    ensures forall k: nat :: k < PER_SECTOR ==>
              EntryAt(DirSector(ino, parent), k) ==
              if k == 0 then DotEntry(ino) else if k == 1 then DotDotEntry(parent) else ZeroEntry()
  {
    hide DotEntry, DotDotEntry, EntryAt, PutEntry, ZeroEntry;
    var t := PutEntry(Zeros(), 0, DotEntry(ino));
    forall k: nat | k < PER_SECTOR
      ensures EntryAt(DirSector(ino, parent), k) ==
              if k == 0 then DotEntry(ino) else if k == 1 then DotDotEntry(parent) else ZeroEntry()
    {
      ZeroSlot(k);
      EntryAfterPut(Zeros(), 0, DotEntry(ino), k);
      EntryAfterPut(t, 1, DotDotEntry(parent), k);
    }
  }

  lemma DotNames(ino: u32, parent: u32)
    ensures DotEntry(ino).Live() && DotEntry(ino).Name() == [DOT]
    ensures DotDotEntry(parent).Live() && DotDotEntry(parent).Name() == [DOT, DOT]
    ensures !ZeroEntry().Live()
  {
    var f := DotDotEntry(parent).filename;
    assert CString(f[2..]) == [];
    assert f[1..][1..] == f[2..];
    assert CString(f[1..]) == [DOT] + CString(f[2..]);
    var g := DotEntry(ino).filename;
    assert CString(g[1..]) == [];
  }

  lemma TwoEntries(s: seq<DirEntry>, ino: u32, parent: u32)
    requires |s| == SLOTS
    requires forall i | 0 <= i < SLOTS ::
               s[i] == if i == 0 then DotEntry(ino) else if i == 1 then DotDotEntry(parent) else ZeroEntry()
    ensures LiveEntries(s) == [DotEntry(ino), DotDotEntry(parent)]
  {
    DotNames(ino, parent);
    hide DotEntry, DotDotEntry, ZeroEntry, CString;
    SkipFree(s, 2, SLOTS);
    assert s[..SLOTS] == s;
    assert s[..2][..1] == s[..1] && s[..1][..0] == [];
    assert LiveEntries(s[..1]) == LiveEntries(s[..1][..0]) + [s[0]];
  }

  /** A new directory is in order; it holds "." for itself and ".." for its parent, in its first two slots, and nothing
      else. */
  lemma NewDirOk(disk: seq<Sector>, lba: u32, ino: u32, parent: u32)
    requires lba != 0 && At(disk, lba) == DirSector(ino, parent)
    ensures DirOk(disk, DirNode(lba))
    ensures LiveEntries(Slots(disk, DirNode(lba))) == [DotEntry(ino), DotDotEntry(parent)]
    ensures Slots(disk, DirNode(lba))[0] == DotEntry(ino) && Slots(disk, DirNode(lba))[1] == DotDotEntry(parent)
  {
    hide DotEntry, DotDotEntry, EntryAt, PutEntry, View, Slots;
    var n := DirNode(lba);
    var s := Slots(disk, n);
    assert n.BlockPtr(0) == lba;
    ViewAt(disk, n, 0);
    DirSectorEntries(ino, parent);
    forall i | 0 <= i < SLOTS
      ensures s[i] == if i == 0 then DotEntry(ino) else if i == 1 then DotDotEntry(parent) else ZeroEntry()
    {
      SlotOf(disk, n, i / PER_SECTOR, i % PER_SECTOR);
      if i / PER_SECTOR > 0 {
        assert n.BlockPtr(i / PER_SECTOR) == 0;
        ViewAt(disk, n, i / PER_SECTOR);
        ZeroSlot(i % PER_SECTOR);
      }
    }
    TwoEntries(s, ino, parent);
    DotNames(ino, parent);
    assert BlockInUse(s, 0) by {
      assert s[0].Live();
    }
  }
}
