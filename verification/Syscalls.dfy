/** sys_open with O_CREAT, sys_mkdir, sys_unlink and sys_rmdir of fs/fs.c, from the path to the tree that results. */
module Syscalls {
  import opened Words
  import opened Bitmaps
  import opened Layout
  import opened BlockMap
  import opened Volumes
  import opened DirEntries
  import opened Directories
  import opened Lifecycle
  import opened NewDirs
  import opened Subdirs
  import opened Paths
  import opened Search
  import opened Trees
  import opened TreeSteps

  /** An absolute path whose components fit into directory entries and, joined, into search_file's record. */
  predicate Pathname(path: seq<byte>) {
    && |path| > 0 && path[0] == SLASH && (forall k :: 0 <= k < |path| ==> path[k] != 0)
    && Fits(Components(path))
  }

  ghost predicate FileSystem(vol: Volume, tree: map<nat, Place>)
    reads vol, vol.blockBitmap.bits, vol.inodeBitmap.bits, vol.ledger
  {
    vol.Valid() && Shaped(vol.sb, vol.State()) && TreeOk(vol.sb, vol.State(), tree)
  }

  /** Where the path leads. */
  ghost function Leads(img: Img, path: seq<byte>): Target {
    Walk(img, 0, 0, Components(path))
  }

  /** search_file from the root, and the open parent directory that it leaves in the record */
  method Locate(vol: Volume, path: seq<byte>, ghost tree: map<nat, Place>) returns (r: int, record: SearchRecord)
    requires FileSystem(vol, tree) && Pathname(path)
    ensures fresh(record) && fresh(record.parentDir) && Reports(Leads(vol.State(), path), r, record)
    ensures record.parentDir.iNo in tree && record.parentDir.iNo in vol.table
    ensures record.parentDir.Shows(vol.table[record.parentDir.iNo])
  {
    hide TreeOk, Walk, Components, DirTree, OpenIn;
    hide Volume.Valid;
    TreeRoot(vol.sb, vol.State(), tree);
    var root := OpenDir(vol, 0, tree.Keys);
    record := new SearchRecord(root);
    r := SearchFile(vol, path, root, record, tree.Keys);
    OpenMeans(vol, record.parentDir, tree.Keys);
  }

  lemma OpenMeans(vol: Volume, dir: Inode, dirs: set<nat>)
    requires OpenIn(vol, dir, dirs)
    ensures dir.iNo in dirs && dir.iNo in vol.table && dir.Shows(vol.table[dir.iNo])
  {
    hide Owned, BitsOf, OnDisk, DirTree;
  }

  /** The characters after the last slash. */
  function Tail(path: seq<byte>): (t: Name)
    ensures |t| <= |path| && t == path[|path| - |t|..]
    ensures forall k :: 0 <= k < |t| ==> t[k] != SLASH
  {
    var n := |path| - 1;
    if |path| == 0 || path[n] == SLASH then [] else Tail(path[..n]) + [path[n]]
  }

  lemma {:induction false} TailOf(pre: seq<byte>, name: Name)
    requires forall k :: 0 <= k < |name| ==> name[k] != SLASH
    ensures Tail(pre + [SLASH] + name) == name
  {
    var path, n := pre + [SLASH] + name, |name| - 1;
    if name == [] {
      assert path[|path| - 1] == SLASH;
    } else {
      assert path[..|path| - 1] == pre + [SLASH] + name[..n];
      TailOf(pre, name[..n]);
    }
  }

  /** `strrchr(path, '/') + 1` */
  method AfterLastSlash(path: seq<byte>) returns (name: Name)
    requires |path| > 0 && path[0] == SLASH
    ensures name == Tail(path)
  {
    var last := 0;
    for i := 0 to |path|
      invariant 0 <= last < |path| && path[last] == SLASH && (last < i || i == 0)
      invariant forall k :: last < k < i ==> path[k] != SLASH
    {
      if path[i] == SLASH {
        last := i;
      }
    }
    name := path[last + 1..];
    assert path == path[..last] + [SLASH] + name;
    TailOf(path[..last], name);
  }

  lemma {:induction false} TailStops(path: seq<byte>)
    requires SLASH in path
    ensures |Tail(path)| < |path| && path[|path| - |Tail(path)| - 1] == SLASH
  {
    var n := |path| - 1;
    if path[n] != SLASH {
      TailStops(path[..n]);
    }
  }

  /** The last component of a path. */
  function Last(path: seq<byte>): Name
    requires |Components(path)| > 0
  {
    Components(path)[|Components(path)| - 1]
  }

  lemma LastComponent(pre: seq<byte>, name: Name)
    requires Plain(name) && name != []
    ensures Components(pre + ([SLASH] + name)) == Components(pre) + [name]
  {
    hide Components;
    ComponentsConcat(pre, [SLASH] + name);
    ComponentsOfOne(name);
  }

  /** What follows the last slash is the last component, if anything follows it; in any case it fits into an entry. */
  lemma TailIsLast(path: seq<byte>)
    requires Pathname(path)
    ensures Tail(path) == [] <==> path[|path| - 1] == SLASH
    ensures Tail(path) != [] ==> Components(path) != [] && Tail(path) == Last(path)
    ensures |Tail(path)| < NAME_LEN && forall k :: 0 <= k < |Tail(path)| ==> Tail(path)[k] != 0
  {
    hide Components, Joined;
    TailStops(path);
    if Tail(path) != [] {
      var pre := path[..|path| - |Tail(path)| - 1];
      assert path == pre + ([SLASH] + Tail(path));
      LastComponent(pre, Tail(path));
    }
  }

  // --- What a path that leads to an inode says about it ---

  /** The last component of a path that leads to an inode is bound to it in the directory found last. */
  lemma Arrived(sb: SuperBlock, img: Img, tree: map<nat, Place>, path: seq<byte>)
    requires TreeOk(sb, img, tree) && Leads(img, path).Reached? && Components(path) != []
    ensures var t := Leads(img, path);
            && t.parent in tree && Last(path) in Children(img, t.parent)
            && Children(img, t.parent)[Last(path)].iNo == t.iNo && Children(img, t.parent)[Last(path)].fType == t.fType
            && EntryOk(Children(img, t.parent)[Last(path)], img.table.Keys, tree, t.parent, Last(path))
  {
    hide Children, Walk, TreeOk, DirTree, Components, EntryOk;
    TreeRoot(sb, img, tree);
    WalkLast(img, tree.Keys, 0, 0, Components(path));
    TreeEntry(sb, img, tree, Leads(img, path).parent, Last(path));
  }

  /** A path that leads to a file ends in a proper name. */
  lemma LeadsToFile(sb: SuperBlock, img: Img, tree: map<nat, Place>, path: seq<byte>)
    requires TreeOk(sb, img, tree) && Leads(img, path).Reached? && Leads(img, path).fType == FT_REGULAR
    ensures Components(path) != [] && !IsDots(Last(path)) && (Leads(img, path).iNo as nat) !in tree
    ensures Leads(img, path).iNo != 0
  {
    hide Children, TreeOk, DirTree, Components;
    if Components(path) != [] {
      hide Walk;
      Arrived(sb, img, tree, path);
    }
  }

  /** A path that leads to a directory and ends in a proper name does not lead to the root. */
  lemma LeadsToDirectory(sb: SuperBlock, img: Img, tree: map<nat, Place>, path: seq<byte>)
    requires TreeOk(sb, img, tree) && Leads(img, path).Reached? && Leads(img, path).fType == FT_DIRECTORY
    requires Components(path) != [] && !IsDots(Last(path))
    ensures (Leads(img, path).iNo as nat) in tree && Leads(img, path).iNo != 0
  {
    hide Children, TreeOk, DirTree, Components, Walk;
    Arrived(sb, img, tree, path);
  }

  /** What a path can lead to. */
  lemma LeadsSomewhere(sb: SuperBlock, img: Img, tree: map<nat, Place>, path: seq<byte>)
    requires TreeOk(sb, img, tree)
    ensures var t := Leads(img, path);
            && (t.Reached? ==> t.iNo in img.table && (t.fType == FT_REGULAR || t.fType == FT_DIRECTORY))
            && (t.Reached? ==> (t.fType == FT_DIRECTORY <==> t.iNo in tree))
  {
    hide Children, TreeOk, DirTree, Components;
    TreeKeys(sb, img, tree);
    if Components(path) != [] && Leads(img, path).Reached? {
      hide Walk;
      Arrived(sb, img, tree, path);
    }
  }

  // --- sys_unlink ---

  /** The loop of sys_unlink over the table of open files */
  method InUse(fileTable: array<Option<u32>>, inodeNo: u32) returns (r: bool)
    requires fileTable.Length == MAX_FILE_OPEN
    ensures r <==> Some(inodeNo) in fileTable[..]
  {
    for fileIdx := 0 to MAX_FILE_OPEN
      invariant forall i :: 0 <= i < fileIdx ==> fileTable[i] != Some(inodeNo)
    {
      if fileTable[fileIdx] == Some(inodeNo) {
        return true;
      }
    }
    return false;
  }

  ghost predicate Unlinkable(t: Target, files: seq<Option<u32>>) {
    t.Reached? && t.fType == FT_REGULAR && 0 <= t.iNo < 0x1_0000_0000 && Some(t.iNo as u32) !in files
  }

  /** Inode ino has lost its name, the last component of the path, and is gone; every other entry and inode is as it was. */
  ghost predicate Gone(sb: SuperBlock, a: Img, b: Img, tree: map<nat, Place>, path: seq<byte>, dir: nat, ino: nat)
    requires Shaped(sb, a) && Shaped(sb, b) && Components(path) != []
  {
    && OneLess(a, b, tree.Keys, dir, Last(path), ino)
    && b.table.Keys == a.table.Keys - {ino}
    && forall j :: j in a.table && j != dir && j != ino ==> Untouched(sb, a, b, j)
  }

  /** The state after sys_unlink or sys_rmdir has removed what the path leads to. */
  lemma AfterRemoval(sb: SuperBlock, a: Img, b: Img, tree: map<nat, Place>, path: seq<byte>, dir: nat, ino: u32, slot: nat)
    requires TreeOk(sb, a, tree) && Shaped(sb, a) && Shaped(sb, b) && dir in tree && dir in a.table && slot < SLOTS
    requires Components(path) != [] && Last(path) in Children(a, dir) && !IsDots(Last(path))
    requires Children(a, dir)[Last(path)].iNo == ino
    requires NamesInode(Slots(a.disk, a.table[dir]), slot, ino) && Removed(sb, a, b, dir, ino, slot)
    requires (ino as nat) in tree ==> forall n :: n in Children(a, ino) ==> IsDots(n)
    ensures TreeOk(sb, b, tree - {ino as nat}) && Gone(sb, a, b, tree, path, dir, ino)
  {
    hide Children, TreeOk, Slots, Components, IsDots, OneLess, Untouched, Shrank, CString, DirectoryAt;
    NamedProperly(sb, a, tree, dir, Last(path), ino);
    TreeAfterRemove(sb, a, b, tree, dir, ino, slot);
  }

  /** sys_unlink */
  method SysUnlink(vol: Volume, path: seq<byte>, fileTable: array<Option<u32>>, ghost tree: map<nat, Place>) returns (r: int)
    requires FileSystem(vol, tree) && Pathname(path) && fileTable.Length == MAX_FILE_OPEN
    requires Leads(vol.State(), path).Reached? ==> Leads(vol.State(), path).iNo != 0
    modifies vol, vol.blockBitmap.bits, vol.inodeBitmap.bits, vol.ledger
    ensures FileSystem(vol, tree) && Shaped(vol.sb, old(vol.State()))
    ensures r == 0 <==> Unlinkable(Leads(old(vol.State()), path), fileTable[..])
    ensures r != 0 ==> r == -1 && vol.State() == old(vol.State())
    ensures r == 0 ==> Components(path) != [] && var t := Leads(old(vol.State()), path);
                       Gone(vol.sb, old(vol.State()), vol.State(), tree, path, t.parent, t.iNo)
  {
    hide BitsOf, TreeOk, Walk, Components, Gone, IsDots;
    hide Volume.Valid;
    ghost var a := vol.State();
    LeadsSomewhere(vol.sb, a, tree, path);
    var inodeNo, record := Locate(vol, path, tree);
    if inodeNo == -1 || record.earlyExit || record.fileType == FT_DIRECTORY {
      return -1;
    }
    ghost var t := Leads(a, path);
    LeadsToFile(vol.sb, a, tree, path);
    NumberFits(vol, t.iNo);
    var inUse := InUse(fileTable, inodeNo);
    if inUse {
      return -1;
    }
    RemoveFile(vol, record.parentDir, inodeNo, path, tree);
    r := 0;
  }

  /** The calls of delete_dir_entry and inode_release in sys_unlink */
  method RemoveFile(vol: Volume, parentDir: Inode, inodeNo: u32, ghost path: seq<byte>, ghost tree: map<nat, Place>)
    requires FileSystem(vol, tree) && Components(path) != [] && !IsDots(Last(path)) && (inodeNo as nat) !in tree
    requires Leads(vol.State(), path).Reached? && Leads(vol.State(), path).iNo == inodeNo
    requires parentDir.iNo == Leads(vol.State(), path).parent && parentDir.iNo in vol.table
    requires parentDir.Shows(vol.table[parentDir.iNo])
    modifies vol, vol.blockBitmap.bits, vol.inodeBitmap.bits, vol.ledger, parentDir
    ensures FileSystem(vol, tree) && Shaped(vol.sb, old(vol.State()))
    ensures Gone(vol.sb, old(vol.State()), vol.State(), tree, path, old(parentDir.iNo), inodeNo)
  {
    hide Owned, BitsOf, TreeOk, Walk, Components, Children, Slots, DirOk, Gone, Removed, NamedOnce, NamesInode, IsDots;
    hide Untouched;
    hide Volume.Core, Volume.Settled;
    ghost var a := vol.State();
    NameReady(vol.sb, a, tree, path, inodeNo);
    ghost var slot := Unlink(vol, parentDir, inodeNo);
    AfterRemoval(vol.sb, a, vol.State(), tree, path, parentDir.iNo, inodeNo, slot);
    assert tree - {inodeNo as nat} == tree;
  }

  lemma NumberFits(vol: Volume, i: nat)
    requires Shaped(vol.sb, vol.State()) && i in vol.table
    ensures i < MAX_FILES_PER_PART
  {
  }

  /** What deleting an entry of a directory of the tree relies on. */
  lemma ReadyToRemove(sb: SuperBlock, img: Img, tree: map<nat, Place>, dir: nat)
    requires TreeOk(sb, img, tree) && dir in tree
    ensures dir in img.table && img.table[dir].Ok() && DirOk(img.disk, img.table[dir])
    ensures Slots(img.disk, img.table[dir])[0].Live() && Slots(img.disk, img.table[dir])[1].Live()
    ensures 0 in img.table && img.table[0].Ok() && img.table[0].sectors[0] == sb.dataStartLba
  {
    hide Slots, DirOk, CString, Shape, KidsOf;
  }

  /** A path that leads to an inode and ends in a proper name has all that deleting the name relies on. */
  lemma NameReady(sb: SuperBlock, img: Img, tree: map<nat, Place>, path: seq<byte>, ino: u32)
    requires TreeOk(sb, img, tree) && Leads(img, path).Reached? && Leads(img, path).iNo == ino
    requires Components(path) != [] && !IsDots(Last(path))
    ensures var d := Leads(img, path).parent;
            && d in tree && d in img.table && img.table[d].Ok() && d != ino && ino != 0 && (ino as nat) in img.table
            && Last(path) in Children(img, d) && Children(img, d)[Last(path)].iNo == ino
            && DirOk(img.disk, img.table[d]) && NamedOnce(Slots(img.disk, img.table[d]), ino)
            && (exists i :: 0 <= i < SLOTS && NamesInode(Slots(img.disk, img.table[d]), i, ino))
            && Slots(img.disk, img.table[d])[0].Live() && !NamesInode(Slots(img.disk, img.table[d]), 0, ino)
    ensures 0 in img.table && img.table[0].Ok() && img.table[0].sectors[0] == sb.dataStartLba
  {
    hide TreeOk, Walk, Components, Children, Slots, DirOk, NamedOnce, NamesInode, IsDots, DirectoryAt;
    Arrived(sb, img, tree, path);
    NamedProperly(sb, img, tree, Leads(img, path).parent, Last(path), ino);
    ReadyToRemove(sb, img, tree, Leads(img, path).parent);
  }

  // --- sys_rmdir ---

  /** A directory with nothing but "." and ".." */
  ghost predicate Removable(img: Img, t: Target) {
    t.Reached? && t.fType == FT_DIRECTORY && forall n :: n in Children(img, t.iNo) ==> IsDots(n)
  }

  /** sys_rmdir, for a path that does not end in "." or ".." */
  method SysRmdir(vol: Volume, path: seq<byte>, ghost tree: map<nat, Place>) returns (r: int, ghost tree': map<nat, Place>)
    requires FileSystem(vol, tree) && Pathname(path)
    requires Leads(vol.State(), path).Reached? ==> Components(path) != [] && !IsDots(Last(path))
    modifies vol, vol.blockBitmap.bits, vol.inodeBitmap.bits, vol.ledger
    ensures FileSystem(vol, tree') && Shaped(vol.sb, old(vol.State()))
    ensures r == 0 <==> Removable(old(vol.State()), Leads(old(vol.State()), path))
    ensures r != 0 ==> r == -1 && vol.State() == old(vol.State()) && tree' == tree
    ensures r == 0 ==> Components(path) != [] && var t := Leads(old(vol.State()), path);
                       && tree' == tree - {t.iNo}
                       && Gone(vol.sb, old(vol.State()), vol.State(), tree, path, t.parent, t.iNo)
  {
    hide BitsOf, TreeOk, Walk, Components, Gone, IsDots, Removable;
    hide Volume.Valid;
    ghost var a := vol.State();
    tree' := tree;
    LeadsSomewhere(vol.sb, a, tree, path);
    NotRemovable(a, Leads(a, path));
    var inodeNo, record := Locate(vol, path, tree);
    if inodeNo == -1 {
      return -1, tree;
    }
    if record.fileType == FT_REGULAR {
      return -1, tree;
    }
    LeadsToDirectory(vol.sb, a, tree, path);
    assert inodeNo != 0;
    NumberFits(vol, inodeNo);
    r := RemoveIfEmpty(vol, record.parentDir, inodeNo, path, tree);
    if r == 0 {
      tree' := tree - {inodeNo as nat};
    }
  }

  lemma NotRemovable(img: Img, t: Target)
    ensures Removable(img, t) ==> t.Reached? && t.fType == FT_DIRECTORY
  {
  }

  /** The rest of sys_rmdir, from dir_open on */
  method RemoveIfEmpty(vol: Volume, parentDir: Inode, inodeNo: u32, ghost path: seq<byte>, ghost tree: map<nat, Place>)
    returns (r: int)
    requires FileSystem(vol, tree) && Components(path) != [] && !IsDots(Last(path))
    requires Leads(vol.State(), path).Reached? && Leads(vol.State(), path).fType == FT_DIRECTORY
    requires Leads(vol.State(), path).iNo == inodeNo && (inodeNo as nat) in tree
    requires parentDir.iNo == Leads(vol.State(), path).parent && parentDir.iNo in vol.table
    requires parentDir.Shows(vol.table[parentDir.iNo])
    modifies vol, vol.blockBitmap.bits, vol.inodeBitmap.bits, vol.ledger, parentDir
    ensures Shaped(vol.sb, old(vol.State()))
    ensures r == 0 <==> Removable(old(vol.State()), Leads(old(vol.State()), path))
    ensures r != 0 ==> r == -1 && vol.State() == old(vol.State()) && FileSystem(vol, tree)
    ensures r == 0 ==> FileSystem(vol, tree - {inodeNo as nat})
    ensures r == 0 ==> Gone(vol.sb, old(vol.State()), vol.State(), tree, path, old(parentDir.iNo), inodeNo)
  {
    hide Owned, BitsOf, TreeOk, Walk, Components, Children, Slots, DirOk, Gone, Removed, NamedOnce, NamesInode, IsDots;
    hide DirTree, OpenIn, Untouched;
    hide Volume.Core, Volume.Settled;
    ghost var a := vol.State();
    NameReady(vol.sb, a, tree, path, inodeNo);
    RmdirReady(vol.sb, a, tree, inodeNo);
    TreeRoot(vol.sb, a, tree);
    var dir := OpenDir(vol, inodeNo, tree.Keys);
    OpenMeans(vol, dir, tree.Keys);
    ghost var slot;
    r, slot := RemoveDirectory(vol, parentDir, dir);
    if r == 0 {
      AfterRemoval(vol.sb, a, vol.State(), tree, path, old(parentDir.iNo), inodeNo, slot);
    }
  }

  /** A directory of the tree has all that removing it relies on, and whether it is empty shows in its slots. */
  lemma RmdirReady(sb: SuperBlock, img: Img, tree: map<nat, Place>, d: nat)
    requires TreeOk(sb, img, tree) && d in tree
    ensures d in img.table && img.table[d].Ok() && DirOk(img.disk, img.table[d])
    ensures Slots(img.disk, img.table[d])[0].Live() && Slots(img.disk, img.table[d])[1].Live()
    ensures (forall n :: n in Children(img, d) ==> IsDots(n)) <==>
            forall i :: 2 <= i < SLOTS ==> !Slots(img.disk, img.table[d])[i].Live()
  {
    hide Slots, TreeOk, Children, DirectoryAt, IsDots, DirOk;
    TreeDirectory(sb, img, tree, d);
    ReadyToRemove(sb, img, tree, d);
    OnlyDots(img, d);
  }

  // --- sys_mkdir ---

  /** Directory ino binds its dots, and directory dir binds a name to it; every other binding is as it was. */
  ghost predicate NamesFounded(a: Img, b: Img, tree: map<nat, Place>, dir: u32, ino: u32, name: Name)
    requires |name| < NAME_LEN
  {
    && Children(b, dir) == Children(a, dir)[name := CreateDirEntry(name, ino, FT_DIRECTORY)]
    && Children(b, ino) == map[[DOT] := DotEntry(ino), [DOT, DOT] := DotDotEntry(dir)]
    && forall d :: d in tree && d != dir as nat ==> Children(b, d) == Children(a, d)
  }

  /** That, and no inode but the directory dir and the new one has changed. */
  ghost predicate Founded(sb: SuperBlock, a: Img, b: Img, tree: map<nat, Place>, dir: u32, ino: u32, name: Name)
    requires Shaped(sb, a) && Shaped(sb, b) && |name| < NAME_LEN
  {
    && NamesFounded(a, b, tree, dir, ino, name)
    && (ino as nat) !in a.table && b.table.Keys == a.table.Keys + {ino as nat}
    && forall j :: j in a.table && j != dir as nat ==> Untouched(sb, a, b, j)
  }

  lemma NamesAfterMake(sb: SuperBlock, a: Img, mid: Img, b: Img, tree: map<nat, Place>, dir: u32, ino: u32, i: nat, name: Name)
    requires TreeOk(sb, a, tree) && Shaped(sb, a) && Shaped(sb, mid) && Shaped(sb, b)
    requires (dir as nat) in tree && dir in a.table && i < SLOTS && (ino as nat) !in tree
    requires 0 < |name| < NAME_LEN && forall k :: 0 <= k < |name| ==> name[k] != 0
    requires name !in Children(a, dir) && Made(sb, a, mid, b, dir, ino, i, name)
    ensures TreeOk(sb, b, Planted(tree, dir, ino)) && NamesFounded(a, b, tree, dir, ino, name)
  {
    hide Children, TreeOk, Slots, CString, DirectoryAt, Made, OneMore, Planted, DotEntry, DotDotEntry, FirstFree;
    TreeAfterMake(sb, a, mid, b, tree, dir, ino, i, name);
    MoreDirectories(mid, b, tree.Keys + {ino as nat}, dir, CreateDirEntry(name, ino, FT_DIRECTORY));
  }

  lemma AfterMake(sb: SuperBlock, a: Img, mid: Img, b: Img, tree: map<nat, Place>, dir: u32, ino: u32, i: nat, name: Name)
    requires TreeOk(sb, a, tree) && Shaped(sb, a) && Shaped(sb, b) && (dir as nat) in tree && dir in a.table
    requires 0 < |name| < NAME_LEN && forall k :: 0 <= k < |name| ==> name[k] != 0
    requires name !in Children(a, dir) && Made(sb, a, mid, b, dir, ino, i, name)
    ensures TreeOk(sb, b, Planted(tree, dir, ino)) && Founded(sb, a, b, tree, dir, ino, name)
  {
    hide Children, TreeOk, Slots, Untouched, Made, Born, Grew, FirstFree, Planted, NamesFounded;
    MadeShaped(sb, a, mid, b, dir, ino, i, name);
    TreeKeys(sb, a, tree);
    MadeParts(sb, a, mid, b, dir, ino, i, name);
    NamesAfterMake(sb, a, mid, b, tree, dir, ino, i, name);
    forall j | j in a.table && j != dir as nat
      ensures Untouched(sb, a, b, j)
    {
      MadeOthers(sb, a, mid, b, dir, ino, i, name, j);
    }
  }

  lemma MadeShaped(sb: SuperBlock, a: Img, mid: Img, b: Img, dir: u32, ino: u32, i: nat, dirname: seq<byte>)
    requires Shaped(sb, a) && Shaped(sb, b) && dir in a.table && |dirname| < NAME_LEN
    requires Made(sb, a, mid, b, dir, ino, i, dirname)
    ensures i < SLOTS && Shaped(sb, mid)
  {
    hide Born, Entered, FirstFree, Slots;
  }

  lemma MadeOthers(sb: SuperBlock, a: Img, mid: Img, b: Img, dir: u32, ino: u32, i: nat, dirname: seq<byte>, j: nat)
    requires Shaped(sb, a) && Shaped(sb, mid) && Shaped(sb, b) && dir in a.table && |dirname| < NAME_LEN
    requires Made(sb, a, mid, b, dir, ino, i, dirname) && j in a.table && j != dir as nat
    ensures Untouched(sb, a, b, j)
  {
    hide Slots, FirstFree, Grew, View, OnDisk, DirSector, DirNode, FreeBlocks;
    assert Untouched(sb, a, mid, j);
    assert Untouched(sb, mid, b, j);
  }

  /** The path leads nowhere, and its last component, which is not empty, is free in the directory where the walk ended. */
  ghost predicate Vacant(img: Img, path: seq<byte>)
    requires |path| > 0
  {
    && path[|path| - 1] != SLASH && Components(path) != [] && Leads(img, path).Absent?
    && Last(path) !in Children(img, Leads(img, path).dir)
  }

  /** Directory d has a free slot, and there are sectors for it and for a new directory's block. */
  ghost predicate RoomToMake(sb: SuperBlock, img: Img, d: nat)
    requires Shaped(sb, img)
  {
    d in img.table && RoomForDirectory(sb, img, d) && !LiveBelow(Slots(img.disk, img.table[d]), SLOTS)
  }

  /** Some inode number is free. */
  ghost predicate NumberLeft(img: Img) {
    exists j :: 0 <= j < MAX_FILES_PER_PART && j !in img.table
  }

  lemma DirSize(sb: SuperBlock, img: Img, tree: map<nat, Place>, d: nat)
    requires TreeOk(sb, img, tree) && d in tree
    ensures d in img.table && img.table[d].Ok() && img.table[d].size + DIR_ENTRY_SIZE < 0x1_0000_0000
    ensures DirectoryAt(img, d)
  {
    hide TreeOk, NamesOk, Slots, CString, LiveEntries;
    TreeDirectory(sb, img, tree, d);
    LiveEntriesFull(Slots(img.disk, img.table[d]));
  }

  /** What Vacant says of the directory where the walk ended: the name that is entered there is not empty and not taken. */
  lemma VacantMeans(img: Img, path: seq<byte>)
    requires Pathname(path) && Leads(img, path).Absent?
    ensures Vacant(img, path) <==> Tail(path) != [] && Tail(path) !in Children(img, Leads(img, path).dir)
    ensures Vacant(img, path) ==> Tail(path) == Last(path)
  {
    hide Children;
    TailIsLast(path);
  }

  /** An entry under what follows the path's last slash has come to the directory where the walk ended. If that directory
      is in order then, the path was vacant. */
  lemma VacantIfInOrder(sb: SuperBlock, a: Img, mid: Img, b: Img, path: seq<byte>, ino: u32, fType: u32, i: nat)
    requires Shaped(sb, mid) && Shaped(sb, b) && Pathname(path) && Leads(a, path).Absent? && fType != FT_UNKNOWN
    requires |Tail(path)| < NAME_LEN && Leads(a, path).dir in mid.table && i < SLOTS
    requires Children(mid, Leads(a, path).dir) == Children(a, Leads(a, path).dir)
    requires DirectoryAt(mid, Leads(a, path).dir) && DirectoryAt(b, Leads(a, path).dir)
    requires FirstFree(Slots(mid.disk, mid.table[Leads(a, path).dir]), i)
    requires Grew(sb, mid, b, Leads(a, path).dir, i, CreateDirEntry(Tail(path), ino, fType))
    ensures Vacant(a, path)
  {
    hide Slots, Walk, Components, CString, Vacant, FirstFree, Grew, DirectoryAt, Children;
    TailIsLast(path);
    VacantMeans(a, path);
    CStringPadded(Tail(path), NAME_LEN - |Tail(path)|);
    GrownInOrder(sb, mid, b, Leads(a, path).dir, i, CreateDirEntry(Tail(path), ino, fType));
  }

  /** With no "n" in the root, the path "/n/" is not vacant: it leads nowhere, and the name entered there is empty. */
  lemma NotVacantWithSlash(img: Img, n: Name)
    requires 0 < |n| < NAME_LEN && Plain(n) && n !in Children(img, 0)
    ensures var path := [SLASH] + n + [SLASH];
            && Pathname(path) && Leads(img, path) == Absent(0) && Tail(path) == [] && !Vacant(img, path)
  {
    hide Children;
    var path := [SLASH] + n + [SLASH];
    ComponentsOfOne(n);
    ComponentsConcat([SLASH] + n, [SLASH]);
    assert Components([SLASH]) == [];
    JoinedNext([], n);
    TailOf([SLASH] + n, []);
    assert path + [] == path;
  }

  lemma FitsTwo(n: Name, m: Name)
    requires |n| < NAME_LEN && |m| < NAME_LEN
    ensures Fits([n, m])
  {
    hide Joined;
    EmptyStack();
    JoinedNext([], n);
    JoinedNext([n], m);
    assert [] + [n] == [n] && [n] + [m] == [n, m];
  }

  lemma TwoComponents(n: Name, m: Name)
    requires 0 < |n| < NAME_LEN && Plain(n) && 0 < |m| < NAME_LEN && Plain(m)
    ensures Components([SLASH] + n + [SLASH] + m) == [n, m] && Pathname([SLASH] + n + [SLASH] + m)
  {
    var path := [SLASH] + n + [SLASH] + m;
    assert path == ([SLASH] + n) + ([SLASH] + m);
    ComponentsOfOne(n);
    ComponentsOfOne(m);
    ComponentsConcat([SLASH] + n, [SLASH] + m);
    hide Components, Fits;
    FitsTwo(n, m);
    assert forall k :: 0 <= k < |path| ==> path[k] != 0;
  }

  /** With no "n" but an "m" in the root, "/n/m" is not vacant: it leads nowhere, and a second "m" is entered in the root. */
  lemma NotVacantBelow(img: Img, n: Name, m: Name)
    requires 0 < |n| < NAME_LEN && Plain(n) && 0 < |m| < NAME_LEN && Plain(m)
    requires n !in Children(img, 0) && m in Children(img, 0)
    ensures var path := [SLASH] + n + [SLASH] + m;
            && Pathname(path) && Leads(img, path) == Absent(0) && Tail(path) == m && !Vacant(img, path)
  {
    hide Children, Components;
    TwoComponents(n, m);
    TailOf([SLASH] + n, m);
  }

  lemma MadeNew(sb: SuperBlock, a: Img, mid: Img, b: Img, dir: u32, ino: u32, i: nat, dirname: seq<byte>)
    requires Shaped(sb, a) && Shaped(sb, b) && dir in a.table && |dirname| < NAME_LEN
    requires Made(sb, a, mid, b, dir, ino, i, dirname)
    ensures (ino as nat) !in a.table
  {
    hide Entered, FirstFree, Slots, DirNode, View, DirSector, FreeBlocks;
  }

  /** The lowest free inode is a new directory, and its entry, under what follows the path's last slash, is in the first
      free slot of the directory where the walk ended; that directory is in order exactly if the path was vacant. */
  ghost predicate MadeAt(sb: SuperBlock, a: Img, b: Img, path: seq<byte>, ino: int)
    requires Shaped(sb, a) && Shaped(sb, b)
  {
    && 0 <= ino < MAX_FILES_PER_PART && (forall j :: 0 <= j < ino ==> j in a.table)
    && |Tail(path)| < NAME_LEN && Leads(a, path).Absent?
    && var d := Leads(a, path).dir;
       && d in a.table && d < 0x1_0000_0000
       && (exists mid: Img, i: nat :: Made(sb, a, mid, b, d, ino, i, Tail(path)))
       && (DirectoryAt(b, d) <==> |path| > 0 && Vacant(a, path))
  }

  /** sys_mkdir. A path that is not vacant is made as well, and then the tree is not one any more. */
  method SysMkdir(vol: Volume, path: seq<byte>, ghost tree: map<nat, Place>)
    returns (r: int, ghost tree': map<nat, Place>, ghost ino: u32)
    requires FileSystem(vol, tree) && Pathname(path)
    requires Leads(vol.State(), path).Absent? ==> RoomToMake(vol.sb, vol.State(), Leads(vol.State(), path).dir)
    modifies vol, vol.blockBitmap.bits, vol.inodeBitmap.bits, vol.ledger
    ensures vol.Valid() && Shaped(vol.sb, vol.State()) && Shaped(vol.sb, old(vol.State()))
    ensures r == 0 <==> Leads(old(vol.State()), path).Absent? && NumberLeft(old(vol.State()))
    ensures r != 0 ==> r == -1 && vol.State() == old(vol.State()) && tree' == tree
    ensures r == 0 ==> MadeAt(vol.sb, old(vol.State()), vol.State(), path, ino)
    ensures r == 0 ==> var d := Leads(old(vol.State()), path).dir; d in tree && d < 0x1_0000_0000 && tree' == Planted(tree, d, ino)
    ensures FileSystem(vol, tree') <==> r != 0 || Vacant(old(vol.State()), path)
    ensures r == 0 && Vacant(old(vol.State()), path) ==>
              |Last(path)| < NAME_LEN &&
              Founded(vol.sb, old(vol.State()), vol.State(), tree, Leads(old(vol.State()), path).dir, ino, Last(path))
  {
    hide Owned, BitsOf, TreeOk, Walk, Components, Children, Slots, Made, Founded, RoomForDirectory, LiveBelow, Planted, Untouched;
    hide Vacant, MadeAt;
    hide Volume.Core, Volume.Settled;
    ghost var a := vol.State();
    ino, tree' := 0, tree;
    LeadsSomewhere(vol.sb, a, tree, path);
    var inodeNo, record := Locate(vol, path, tree);
    if record.earlyExit {
      return -1, tree, 0;
    }
    if inodeNo != -1 {
      return -1, tree, 0;
    }
    var parentDir := record.parentDir;
    var dirname := AfterLastSlash(path);
    TailIsLast(path);
    DirSize(vol.sb, a, tree, parentDir.iNo);
    ghost var slot, mid;
    inodeNo, slot, mid := MakeDirectory(vol, parentDir, dirname);
    if inodeNo == -1 {
      return -1, tree, 0;
    }
    ino := inodeNo;
    MadeNew(vol.sb, a, mid, vol.State(), parentDir.iNo, ino, slot, dirname);
    AfterMakeIff(vol.sb, a, mid, vol.State(), tree, path, ino, slot);
    tree' := Planted(tree, parentDir.iNo, ino);
    r := 0;
  }

  /** The state after sys_mkdir has made a directory: a tree if and only if the path was vacant. */
  lemma AfterMakeIff(sb: SuperBlock, a: Img, mid: Img, b: Img, tree: map<nat, Place>, path: seq<byte>, ino: u32, i: nat)
    requires TreeOk(sb, a, tree) && Shaped(sb, a) && Shaped(sb, b) && Pathname(path) && Leads(a, path).Absent?
    requires |Tail(path)| < NAME_LEN && Leads(a, path).dir in tree && Leads(a, path).dir in a.table
    requires Leads(a, path).dir < 0x1_0000_0000 && 0 <= ino < MAX_FILES_PER_PART
    requires Made(sb, a, mid, b, Leads(a, path).dir, ino, i, Tail(path)) && forall j :: 0 <= j < ino ==> j in a.table
    ensures MadeAt(sb, a, b, path, ino)
    ensures TreeOk(sb, b, Planted(tree, Leads(a, path).dir, ino)) <==> Vacant(a, path)
    ensures Vacant(a, path) ==>
              |Last(path)| < NAME_LEN && Founded(sb, a, b, tree, Leads(a, path).dir, ino, Last(path))
  {
    hide TreeOk, Walk, Components, Children, Slots, Made, Founded, Vacant, DirectoryAt, Untouched;
    var d := Leads(a, path).dir;
    TailIsLast(path);
    VacantMeans(a, path);
    if Vacant(a, path) {
      AfterMake(sb, a, mid, b, tree, d, ino, i, Tail(path));
      TreeKeeps(sb, b, Planted(tree, d, ino), d);
    } else {
      NotInOrderAfterMake(sb, a, mid, b, tree, path, ino, i);
    }
  }

  lemma TreeKeeps(sb: SuperBlock, img: Img, tree: map<nat, Place>, d: nat)
    requires TreeOk(sb, img, tree) && d in tree
    ensures DirectoryAt(img, d)
  {
    hide DirectoryAt, Shape, KidsOf;
  }

  lemma BornOthers(sb: SuperBlock, a: Img, mid: Img, ino: u32, parent: u32)
    requires Shaped(sb, a) && Shaped(sb, mid) && Born(sb, a, mid, ino, parent)
    ensures forall j :: j in a.table ==> Untouched(sb, a, mid, j)
  {
    hide Untouched, View, DirSector, DirNode, FreeBlocks;
  }

  lemma NotInOrderAfterMake(sb: SuperBlock, a: Img, mid: Img, b: Img, tree: map<nat, Place>, path: seq<byte>, ino: u32, i: nat)
    requires TreeOk(sb, a, tree) && Shaped(sb, a) && Shaped(sb, b) && Pathname(path) && Leads(a, path).Absent?
    requires |Tail(path)| < NAME_LEN && Leads(a, path).dir in tree && Leads(a, path).dir in a.table
    requires Leads(a, path).dir < 0x1_0000_0000 && Made(sb, a, mid, b, Leads(a, path).dir, ino, i, Tail(path))
    requires !Vacant(a, path)
    ensures !DirectoryAt(b, Leads(a, path).dir) && !TreeOk(sb, b, Planted(tree, Leads(a, path).dir, ino))
  {
    hide TreeOk, Walk, Components, Children, Slots, Born, Grew, Vacant, DirectoryAt, Untouched, FirstFree;
    var d := Leads(a, path).dir;
    MadeShaped(sb, a, mid, b, d, ino, i, Tail(path));
    TreeKeys(sb, a, tree);
    TreeKeeps(sb, a, tree, d);
    MadeParts(sb, a, mid, b, d, ino, i, Tail(path));
    if DirectoryAt(b, d) {
      BornOthers(sb, a, mid, ino, d);
      SameDirectory(sb, a, mid, d);
      VacantIfInOrder(sb, a, mid, b, path, ino, FT_DIRECTORY, i);
    }
    if TreeOk(sb, b, Planted(tree, d, ino)) {
      TreeKeeps(sb, b, Planted(tree, d, ino), d);
    }
  }

  // --- sys_open with O_CREAT ---

  /** Inode ino is new and holds nothing, and directory dir binds a name to it; every other binding and inode is as it
      was. */
  ghost predicate Filed(sb: SuperBlock, a: Img, b: Img, tree: map<nat, Place>, dir: nat, ino: u32, name: Name)
    requires Shaped(sb, a) && Shaped(sb, b) && |name| < NAME_LEN
  {
    && (ino as nat) !in a.table && b.table.Keys == a.table.Keys + {ino as nat} && b.table[ino] == EmptyNode()
    && Children(b, dir) == Children(a, dir)[name := CreateDirEntry(name, ino, FT_REGULAR)]
    && (forall d :: d in tree && d != dir ==> Children(b, d) == Children(a, d))
    && forall j :: j in a.table && j != dir ==> Untouched(sb, a, b, j)
  }

  lemma AfterCreate(sb: SuperBlock, a: Img, b: Img, tree: map<nat, Place>, dir: nat, ino: u32, i: nat, name: Name)
    requires TreeOk(sb, a, tree) && Shaped(sb, a) && Shaped(sb, b) && dir in tree && dir in a.table && i < SLOTS
    requires 0 < |name| < NAME_LEN && forall k :: 0 <= k < |name| ==> name[k] != 0
    requires name !in Children(a, dir) && FirstFree(Slots(a.disk, a.table[dir]), i)
    requires Created(sb, a, b, dir, ino, i, CreateDirEntry(name, ino, FT_REGULAR))
    ensures TreeOk(sb, b, tree) && Filed(sb, a, b, tree, dir, ino, name)
  {
    hide Children, TreeOk, Slots, Untouched, CString, Grew, FirstFree, OneMore, EmptyNode;
    TreeAfterCreate(sb, a, b, tree, dir, ino, i, name);
    MoreDirectories(a, b, tree.Keys, dir, CreateDirEntry(name, ino, FT_REGULAR));
  }

  /** There are sectors for one more entry of directory d. */
  ghost predicate RoomToCreate(sb: SuperBlock, img: Img, d: nat)
    requires Shaped(sb, img)
  {
    d in img.table && RoomForEntry(sb, img, d)
  }

  /** Directory d has a free slot. */
  ghost predicate SlotLeft(img: Img, d: nat) {
    d in img.table && img.table[d].Ok() && !LiveBelow(Slots(img.disk, img.table[d]), SLOTS)
  }

  /** The lowest free inode is a new file under the path's last component, in the directory where the walk ended. */
  ghost predicate FiledAt(sb: SuperBlock, a: Img, b: Img, tree: map<nat, Place>, path: seq<byte>, ino: int)
    requires Shaped(sb, a) && Shaped(sb, b)
  {
    && Components(path) != [] && |Last(path)| < NAME_LEN && 0 <= ino < MAX_FILES_PER_PART
    && Leads(a, path).Absent? && Leads(a, path).dir in tree && Filed(sb, a, b, tree, Leads(a, path).dir, ino, Last(path))
    && forall j :: 0 <= j < ino ==> j in a.table
  }

  /** The lowest free inode is a new file, and its entry, under what follows the path's last slash, is in the first free slot
      of the directory where the walk ended; that directory is in order exactly if the path was vacant. */
  ghost predicate CreatedAt(sb: SuperBlock, a: Img, b: Img, path: seq<byte>, ino: int)
    requires Shaped(sb, a) && Shaped(sb, b)
  {
    && 0 <= ino < MAX_FILES_PER_PART && (forall j :: 0 <= j < ino ==> j in a.table)
    && |Tail(path)| < NAME_LEN && Leads(a, path).Absent?
    && var d := Leads(a, path).dir;
       && d in a.table
       && (exists i: nat :: i < SLOTS && FirstFree(Slots(a.disk, a.table[d]), i) &&
                            Created(sb, a, b, d, ino, i, CreateDirEntry(Tail(path), ino, FT_REGULAR)))
       && (DirectoryAt(b, d) <==> |path| > 0 && Vacant(a, path))
  }

  /** sys_open with O_CREAT makes a file: the walk ended without one, and a number, a slot in the table of open files and a
      slot of the directory where it ended are free. */
  ghost predicate CanCreate(img: Img, t: Target, files: seq<Option<u32>>) {
    t.Absent? && NumberLeft(img) && None in files && SlotLeft(img, t.dir)
  }

  /** What is in the way of making a file where a walk ended, put the other way round */
  lemma NothingInTheWay(sb: SuperBlock, img: Img, t: Target, files: seq<Option<u32>>)
    requires Shaped(sb, img) && t.Absent? && t.dir in img.table
    ensures !CannotCreate(img, t.dir, files) <==> CanCreate(img, t, files)
  {
    hide LiveBelow, Slots;
  }

  /** sys_open with O_CREAT. The result is the process's file descriptor; it is -1 also when the file has been made and the
      process's own table is full. `ino` is the new inode's number, or -1 if nothing has been made. A path that is not
      vacant is created as well, and then the tree is not one any more. */
  method SysCreate(vol: Volume, path: seq<byte>, fileTable: array<Option<u32>>, fdTable: array<int>, ghost tree: map<nat, Place>)
    returns (r: int, ghost ino: int)
    requires FileSystem(vol, tree) && Pathname(path)
    requires fileTable.Length == MAX_FILE_OPEN && fdTable.Length == MAX_FILES_OPEN_PER_PROC
    requires Leads(vol.State(), path).Absent? ==> RoomToCreate(vol.sb, vol.State(), Leads(vol.State(), path).dir)
    modifies vol, vol.blockBitmap.bits, vol.inodeBitmap.bits, vol.ledger, fileTable, fdTable
    ensures vol.Valid() && Shaped(vol.sb, vol.State()) && Shaped(vol.sb, old(vol.State()))
    ensures ino != -1 <==> CanCreate(old(vol.State()), Leads(old(vol.State()), path), old(fileTable[..]))
    ensures ino == -1 ==> r == -1 && vol.State() == old(vol.State())
    ensures ino == -1 ==> fileTable[..] == old(fileTable[..]) && fdTable[..] == old(fdTable[..])
    ensures ino != -1 ==> 0 <= ino < 0x1_0000_0000 && CreatedAt(vol.sb, old(vol.State()), vol.State(), path, ino)
    ensures ino != -1 ==> Opened(old(fileTable[..]), fileTable[..], old(fdTable[..]), fdTable[..], ino, r)
    ensures FileSystem(vol, tree) <==> ino == -1 || Vacant(old(vol.State()), path)
    ensures ino != -1 && Vacant(old(vol.State()), path) ==> FiledAt(vol.sb, old(vol.State()), vol.State(), tree, path, ino)
  {
    hide Owned, BitsOf, TreeOk, Walk, Components, Children, Slots, Created, RoomForEntry, LiveBelow, Untouched, FirstFree;
    hide CannotCreate, NumberLeft, SlotLeft, Opened, Vacant, CreatedAt, FiledAt;
    hide Volume.Core, Volume.Settled;
    ghost var a := vol.State();
    LeadsSomewhere(vol.sb, a, tree, path);
    var inodeNo, record := Locate(vol, path, tree);
    if record.earlyExit {
      return -1, -1;
    }
    if inodeNo == -1 {
      var parentDir := record.parentDir;
      var filename := AfterLastSlash(path);
      TailIsLast(path);
      DirSize(vol.sb, a, tree, parentDir.iNo);
      NothingInTheWay(vol.sb, a, Leads(a, path), fileTable[..]);
      ghost var slot;
      r, ino, slot := FileCreate(vol, parentDir, filename, fileTable, fdTable);
      if ino != -1 {
        SlotFits(Slots(a.disk, a.table[parentDir.iNo]), slot);
        AfterCreateIff(vol.sb, a, vol.State(), tree, path, ino, slot);
      }
      return;
    }
    return -1, -1;
  }

  /** The state after sys_open has created a file: a tree if and only if the path was vacant. */
  lemma AfterCreateIff(sb: SuperBlock, a: Img, b: Img, tree: map<nat, Place>, path: seq<byte>, ino: int, i: nat)
    requires TreeOk(sb, a, tree) && Shaped(sb, a) && Shaped(sb, b) && Pathname(path) && Leads(a, path).Absent?
    requires |Tail(path)| < NAME_LEN && Leads(a, path).dir in tree && Leads(a, path).dir in a.table
    requires 0 <= ino < MAX_FILES_PER_PART && FirstFree(Slots(a.disk, a.table[Leads(a, path).dir]), i)
    requires i < SLOTS && Created(sb, a, b, Leads(a, path).dir, ino, i, CreateDirEntry(Tail(path), ino, FT_REGULAR))
    requires forall j :: 0 <= j < ino ==> j in a.table
    ensures CreatedAt(sb, a, b, path, ino)
    ensures TreeOk(sb, b, tree) <==> Vacant(a, path)
    ensures Vacant(a, path) ==> FiledAt(sb, a, b, tree, path, ino)
  {
    hide TreeOk, Walk, Components, Children, Slots, Created, Filed, Vacant, DirectoryAt, Untouched, FirstFree;
    var d := Leads(a, path).dir;
    TailIsLast(path);
    VacantMeans(a, path);
    if Vacant(a, path) {
      AfterCreate(sb, a, b, tree, d, ino, i, Tail(path));
      TreeKeeps(sb, b, tree, d);
    } else {
      NotInOrderAfterCreate(sb, a, b, tree, path, ino, i);
    }
  }

  lemma NotInOrderAfterCreate(sb: SuperBlock, a: Img, b: Img, tree: map<nat, Place>, path: seq<byte>, ino: u32, i: nat)
    requires TreeOk(sb, a, tree) && Shaped(sb, a) && Shaped(sb, b) && Pathname(path) && Leads(a, path).Absent?
    requires |Tail(path)| < NAME_LEN && Leads(a, path).dir in tree && Leads(a, path).dir in a.table && i < SLOTS
    requires FirstFree(Slots(a.disk, a.table[Leads(a, path).dir]), i)
    requires Created(sb, a, b, Leads(a, path).dir, ino, i, CreateDirEntry(Tail(path), ino, FT_REGULAR))
    requires !Vacant(a, path)
    ensures !DirectoryAt(b, Leads(a, path).dir) && !TreeOk(sb, b, tree)
  {
    hide TreeOk, Walk, Components, Children, Slots, Grew, Vacant, DirectoryAt, Untouched, FirstFree, EmptyNode;
    var d := Leads(a, path).dir;
    TreeKeeps(sb, a, tree, d);
    if DirectoryAt(b, d) {
      VacantIfInOrder(sb, a, a, b, path, ino, FT_REGULAR, i);
    }
    if TreeOk(sb, b, tree) {
      TreeKeeps(sb, b, tree, d);
    }
  }

  lemma SlotFits(s: seq<DirEntry>, i: nat)
    requires |s| == SLOTS && FirstFree(s, i)
    ensures i < SLOTS
  {
  }
}
