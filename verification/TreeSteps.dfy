/** Every operation on the file system keeps the directory tree: writing a file, creating one, making a directory, removing
    either; and formatting makes one. */
module TreeSteps {
  import opened Words
  import opened Layout
  import opened BlockMap
  import opened Volumes
  import opened DirEntries
  import opened Directories
  import opened Lifecycle
  import opened NewDirs
  import opened Subdirs
  import opened Format
  import opened Paths
  import opened Search
  import opened Trees

  // --- One directory ---

  lemma ChildrenAre(img: Img, d: nat)
    requires DirectoryAt(img, d)
    ensures d in img.table && img.table[d].Ok() && DirOk(img.disk, img.table[d])
    ensures Children(img, d) == Bindings(Slots(img.disk, img.table[d]))
    ensures Children(img, d).Keys == Names(Slots(img.disk, img.table[d]))
    ensures NamesOk(Slots(img.disk, img.table[d]))
  {
    hide Slots, CString, NamesOk, Names;
  }

  lemma DotsBound(img: Img, d: nat)
    requires DirectoryAt(img, d)
    ensures [DOT] in Children(img, d) && [DOT, DOT] in Children(img, d)
  {
    hide Slots, CString, DirOk;
    ChildrenAre(img, d);
    var s := Slots(img.disk, img.table[d]);
    BindingAt(s, 0);
    BindingAt(s, 1);
  }

  lemma SameDirectory(sb: SuperBlock, a: Img, b: Img, d: nat)
    requires Shaped(sb, a) && Shaped(sb, b) && DirectoryAt(a, d) && d in a.table && Untouched(sb, a, b, d)
    ensures DirectoryAt(b, d) && Children(b, d) == Children(a, d)
  {
    hide Slots, CString, DirOk, View, OnDisk, Bindings;
    StillDirectory(sb, a, b, d);
  }

  /** A directory that is in order after an entry has come has got a proper name that was free. */
  lemma GrownInOrder(sb: SuperBlock, a: Img, b: Img, dir: nat, i: nat, e: DirEntry)
    requires Shaped(sb, a) && Shaped(sb, b) && DirectoryAt(a, dir) && dir in a.table && i < SLOTS
    requires FirstFree(Slots(a.disk, a.table[dir]), i) && Grew(sb, a, b, dir, i, e) && e.Live()
    requires DirectoryAt(b, dir)
    ensures 0 < |e.Name()| < NAME_LEN && e.Name() !in Children(a, dir)
  {
    hide Slots, CString, Names, NamesOk, LiveEntries, ZeroEntry;
    ChildrenAre(a, dir);
    NamesOkIff(Slots(a.disk, a.table[dir]), i, e);
  }

  lemma GrownDirectory(sb: SuperBlock, a: Img, b: Img, dir: nat, i: nat, e: DirEntry)
    requires Shaped(sb, a) && Shaped(sb, b) && DirectoryAt(a, dir) && dir in a.table && i < SLOTS
    requires FirstFree(Slots(a.disk, a.table[dir]), i) && Grew(sb, a, b, dir, i, e)
    requires e.Ok() && e.Live() && 0 < |e.Name()| < NAME_LEN && e.Name() !in Children(a, dir)
    ensures DirectoryAt(b, dir) && Children(b, dir) == Children(a, dir)[e.Name() := e]
  {
    hide Slots, CString, DirOk, Bindings, Names, Grew;
    ChildrenAre(a, dir);
    GrewSlots(sb, a, b, dir, i, e);
    DirOkAfterAdd(sb, a, b, dir, i, e);
  }

  lemma ShrunkDirectory(sb: SuperBlock, a: Img, b: Img, dir: nat, i: nat)
    requires Shaped(sb, a) && Shaped(sb, b) && DirectoryAt(a, dir) && dir in a.table && 2 <= i < SLOTS
    requires Slots(a.disk, a.table[dir])[i].Live() && Shrank(sb, a, b, dir, i)
    ensures DirectoryAt(b, dir) && Children(b, dir) == Children(a, dir) - {Slots(a.disk, a.table[dir])[i].Name()}
  {
    hide Slots, CString, DirOk, Bindings, Names, Shrank;
    ChildrenAre(a, dir);
    ShrankSlots(sb, a, b, dir, i);
    DirOkAfterDelete(sb, a, b, dir, i);
  }

  lemma ShrankSlots(sb: SuperBlock, a: Img, b: Img, dir: nat, i: nat)
    requires Shaped(sb, a) && Shaped(sb, b) && dir in a.table && i < SLOTS && Shrank(sb, a, b, dir, i)
    ensures dir in b.table && Slots(b.disk, b.table[dir]) == Slots(a.disk, a.table[dir])[i := ZeroEntry()]
  {
    hide Slots;
  }

  lemma BornDirectory(sb: SuperBlock, a: Img, b: Img, ino: u32, parent: u32)
    requires Shaped(sb, a) && Shaped(sb, b) && Born(sb, a, b, ino, parent)
    ensures DirectoryAt(b, ino)
    ensures Children(b, ino) == map[[DOT] := DotEntry(ino), [DOT, DOT] := DotDotEntry(parent)]
  {
    hide Slots, CString, DirOk, Bindings, View, DirSector, DirNode, Kept, FreeBlocks, DotEntry, DotDotEntry;
    BornIsDirectory(sb, a, b, ino, parent);
    DotNames(ino, parent);
  }

  // --- What the invariant consists of ---

  lemma TreeParts(sb: SuperBlock, img: Img, tree: map<nat, Place>)
    requires TreeOk(sb, img, tree)
    ensures forall d :: d in tree ==> DirectoryAt(img, d) && d in img.table
    ensures 0 in tree && 0 in img.table && img.table[0].sectors[0] == sb.dataStartLba
    ensures tree.Keys <= img.table.Keys && Shape(KidsOf(img, tree.Keys), img.table.Keys, tree)
  {
    hide Children, Slots, DirOk, CString, EntriesOk, OneName, AllNamed, KidsOf;
  }

  lemma TreeOfParts(sb: SuperBlock, img: Img, tree: map<nat, Place>)
    requires forall d :: d in tree ==> DirectoryAt(img, d)
    requires 0 in img.table && img.table[0].Ok() && img.table[0].sectors[0] == sb.dataStartLba
    requires Shape(KidsOf(img, tree.Keys), img.table.Keys, tree)
    ensures TreeOk(sb, img, tree)
  {
    hide DirectoryAt, Shape, KidsOf;
  }

  // --- The root's first sector ---

  lemma GrownRoot(sb: SuperBlock, a: Img, b: Img, dir: nat, i: nat, e: DirEntry)
    requires Shaped(sb, a) && Shaped(sb, b) && dir in a.table && i < SLOTS && Grew(sb, a, b, dir, i, e)
    requires a.table[dir].sectors[0] != 0
    ensures dir in b.table && b.table[dir].sectors[0] == a.table[dir].sectors[0]
  {
    hide Slots, FreeBlocks, SlotCost;
    assert a.table[dir].BlockPtr(0) == a.table[dir].sectors[0] && b.table[dir].BlockPtr(0) == b.table[dir].sectors[0];
  }

  lemma ShrunkRoot(sb: SuperBlock, a: Img, b: Img, dir: nat, i: nat)
    requires Shaped(sb, a) && Shaped(sb, b) && dir in a.table && 0 < i < SLOTS && Shrank(sb, a, b, dir, i)
    requires Slots(a.disk, a.table[dir])[0].Live()
    ensures dir in b.table && b.table[dir].sectors[0] == a.table[dir].sectors[0]
  {
    hide Slots;
    assert a.table[dir].BlockPtr(0) == a.table[dir].sectors[0] && b.table[dir].BlockPtr(0) == b.table[dir].sectors[0];
  }

  // --- Formatting ---

  /** A partition as partition_format leaves it: a tree that is a root directory with its dots. */
  lemma TreeAfterFormat(sb: SuperBlock, img: Img)
    requires WellFormed(sb) && img.table == map[0 := RootNode(sb)] && DirOk(img.disk, RootNode(sb))
    requires LiveEntries(Slots(img.disk, RootNode(sb))) == [DotEntry(0), DotDotEntry(0)]
    requires Slots(img.disk, RootNode(sb))[0] == DotEntry(0) && Slots(img.disk, RootNode(sb))[1] == DotDotEntry(0)
    ensures TreeOk(sb, img, map[0 := Place(0, 0)])
  {
    hide Slots, CString, LiveEntries, DotEntry, DotDotEntry, Children, KidsOf;
    DotNames(0, 0);
    ChildrenAre(img, 0);
    TwoBindings(Slots(img.disk, RootNode(sb)), 0, 0);
    RootAlone(img);
    var tree: map<nat, Place> := map[0 := Place(0, 0)];
    assert tree.Keys == {0} && img.table.Keys == {0};
    TreeOfParts(sb, img, tree);
  }

  lemma RootAlone(img: Img)
    requires img.table.Keys == {0}
    requires Children(img, 0) == map[[DOT] := DotEntry(0), [DOT, DOT] := DotDotEntry(0)]
    ensures Shape(KidsOf(img, {0}), {0}, map[0 := Place(0, 0)])
  {
    hide Children, KidsOf, Bound, EntryOf;
    KidsAre(img, {0});
  }

  // --- Writing a file ---

  /** file_write, and whatever else happens to a file and leaves every other inode alone, keeps the tree. */
  lemma TreeAfterWrite(sb: SuperBlock, a: Img, b: Img, tree: map<nat, Place>, ino: nat)
    requires TreeOk(sb, a, tree) && Shaped(sb, a) && Shaped(sb, b)
    requires ino !in tree && OthersUntouched(sb, a, b, ino)
    ensures TreeOk(sb, b, tree) && KidsOf(b, tree.Keys) == KidsOf(a, tree.Keys)
  {
    hide Children, Shape, DirectoryAt, View, OnDisk, Untouched, TreeOk;
    TreeParts(sb, a, tree);
    forall d | d in tree
      ensures DirectoryAt(b, d) && Children(b, d) == Children(a, d)
    {
      SameDirectory(sb, a, b, d);
    }
    UntouchedViews(sb, a, b, 0);
    assert KidsOf(b, tree.Keys) == KidsOf(a, tree.Keys);
    TreeOfParts(sb, b, tree);
  }

  // --- Creating a file ---

  /** Directory dir maps one more name; the others are as they were. */
  ghost predicate OneMore(a: Img, b: Img, dirs: set<nat>, dir: nat, e: DirEntry) {
    && dir in dirs && e.Name() !in Children(a, dir)
    && (forall d :: d in dirs ==> DirectoryAt(b, d))
    && Children(b, dir) == Children(a, dir)[e.Name() := e]
    && forall d :: d in dirs && d != dir ==> Children(b, d) == Children(a, d)
  }

  lemma OneMoreName(a: Img, b: Img, dirs: set<nat>, dir: nat, e: DirEntry)
    requires OneMore(a, b, dirs, dir, e)
    ensures NameAdded(KidsOf(a, dirs), KidsOf(b, dirs), dir, e.Name(), e)
  {
    hide Children, DirectoryAt, KidsOf, CString, Bound, EntryOf;
    KidsAre(a, dirs);
    KidsAre(b, dirs);
  }

  lemma GrownTree(sb: SuperBlock, a: Img, b: Img, dirs: set<nat>, dir: nat, i: nat, e: DirEntry)
    requires Shaped(sb, a) && Shaped(sb, b) && dir in dirs && i < SLOTS
    requires forall d :: d in dirs ==> DirectoryAt(a, d) && d in a.table && (d != dir ==> Untouched(sb, a, b, d))
    requires FirstFree(Slots(a.disk, a.table[dir]), i) && Grew(sb, a, b, dir, i, e)
    requires e.Ok() && e.Live() && 0 < |e.Name()| < NAME_LEN && e.Name() !in Children(a, dir)
    requires 0 in dirs && a.table[0].sectors[0] == sb.dataStartLba
    ensures OneMore(a, b, dirs, dir, e) && 0 in b.table && b.table[0].sectors[0] == sb.dataStartLba
  {
    hide Children, DirectoryAt, Slots, CString, Grew, Untouched, FirstFree;
    GrownDirectory(sb, a, b, dir, i, e);
    GrewSlots(sb, a, b, dir, i, e);
    forall d | d in dirs && d != dir
      ensures DirectoryAt(b, d) && Children(b, d) == Children(a, d)
    {
      SameDirectory(sb, a, b, d);
    }
    if dir == 0 {
      GrownRoot(sb, a, b, dir, i, e);
    } else {
      UntouchedViews(sb, a, b, 0);
    }
  }

  /** A new name, as an entry */
  lemma NewEntry(name: seq<byte>, ino: u32, fType: u32)
    requires 0 < |name| < NAME_LEN && forall k :: 0 <= k < |name| ==> name[k] != 0
    ensures CreateDirEntry(name, ino, fType).Name() == name
  {
    CStringPadded(name, NAME_LEN - |name|);
  }

  /** file_create with a new name keeps the tree and adds exactly that name, for a file. */
  lemma TreeAfterCreate(sb: SuperBlock, a: Img, b: Img, tree: map<nat, Place>, dir: nat, ino: u32, i: nat, filename: seq<byte>)
    requires TreeOk(sb, a, tree) && Shaped(sb, a) && Shaped(sb, b) && dir in tree && dir in a.table && i < SLOTS
    requires 0 < |filename| < NAME_LEN && forall k :: 0 <= k < |filename| ==> filename[k] != 0
    requires filename !in Children(a, dir) && FirstFree(Slots(a.disk, a.table[dir]), i)
    requires Created(sb, a, b, dir, ino, i, CreateDirEntry(filename, ino, FT_REGULAR))
    ensures TreeOk(sb, b, tree) && OneMore(a, b, tree.Keys, dir, CreateDirEntry(filename, ino, FT_REGULAR))
    ensures CreateDirEntry(filename, ino, FT_REGULAR).Name() == filename
  {
    hide Children, DirectoryAt, Slots, CString, Grew, Untouched, FirstFree, KidsOf, OneMore, Shape, TreeOk;
    var e := CreateDirEntry(filename, ino, FT_REGULAR);
    NewEntry(filename, ino, FT_REGULAR);
    TreeParts(sb, a, tree);
    DotsBound(a, dir);
    GrownTree(sb, a, b, tree.Keys, dir, i, e);
    OneMoreName(a, b, tree.Keys, dir, e);
    ShapeAdd(KidsOf(a, tree.Keys), KidsOf(b, tree.Keys), a.table.Keys, tree, dir, filename, e);
    MoreDirectories(a, b, tree.Keys, dir, e);
    TreeOfParts(sb, b, tree);
  }

  lemma MoreDirectories(a: Img, b: Img, dirs: set<nat>, dir: nat, e: DirEntry)
    requires OneMore(a, b, dirs, dir, e)
    ensures forall d :: d in dirs ==> DirectoryAt(b, d)
    ensures Children(b, dir) == Children(a, dir)[e.Name() := e]
    ensures forall d :: d in dirs && d != dir ==> Children(b, d) == Children(a, d)
  {
    hide Children, DirectoryAt, CString;
  }

  // --- Making a directory ---

  /** The tree with directory ino below directory dir. */
  ghost function Planted(tree: map<nat, Place>, dir: nat, ino: nat): map<nat, Place>
    requires dir in tree
  {
    tree[ino := Place(dir, tree[dir].depth + 1)]
  }

  /** Between the two halves of sys_mkdir, the new directory has its dots and every other one is as it was. */
  lemma BornTree(sb: SuperBlock, a: Img, mid: Img, dirs: set<nat>, ino: u32, dir: u32)
    requires Shaped(sb, a) && Shaped(sb, mid) && Born(sb, a, mid, ino, dir) && (ino as nat) !in dirs
    requires forall d :: d in dirs ==> DirectoryAt(a, d) && d in a.table
    ensures forall d :: d in dirs + {ino as nat} ==> DirectoryAt(mid, d) && d in mid.table
    ensures forall d :: d in dirs ==> Children(mid, d) == Children(a, d)
    ensures DotsAdded(KidsOf(a, dirs), KidsOf(mid, dirs + {ino as nat}), ino, dir)
  {
    hide Children, DirectoryAt, KidsOf, Bound, EntryOf, View, DirSector, DirNode, FreeBlocks, Untouched;
    BornDirectory(sb, a, mid, ino, dir);
    forall d | d in dirs
      ensures DirectoryAt(mid, d) && Children(mid, d) == Children(a, d) && d in mid.table
    {
      SameDirectory(sb, a, mid, d);
    }
    KidsAre(a, dirs);
    KidsAre(mid, dirs + {ino as nat});
  }

  /** sys_mkdir with a new name keeps the tree, with a new directory in it, and adds exactly that name. */
  lemma TreeAfterMake(sb: SuperBlock, a: Img, mid: Img, b: Img, tree: map<nat, Place>, dir: u32, ino: u32, i: nat, dirname: seq<byte>)
    requires TreeOk(sb, a, tree) && Shaped(sb, a) && Shaped(sb, mid) && Shaped(sb, b)
    requires (dir as nat) in tree && dir in a.table && i < SLOTS
    requires 0 < |dirname| < NAME_LEN && forall k :: 0 <= k < |dirname| ==> dirname[k] != 0
    requires dirname !in Children(a, dir) && Made(sb, a, mid, b, dir, ino, i, dirname)
    ensures TreeOk(sb, b, Planted(tree, dir, ino))
    ensures OneMore(mid, b, tree.Keys + {ino as nat}, dir, CreateDirEntry(dirname, ino, FT_DIRECTORY))
    ensures CreateDirEntry(dirname, ino, FT_DIRECTORY).Name() == dirname
    ensures forall d :: d in tree ==> Children(mid, d) == Children(a, d)
    ensures Children(b, ino) == map[[DOT] := DotEntry(ino), [DOT, DOT] := DotDotEntry(dir)]
  {
    hide Children, DirectoryAt, Slots, CString, Grew, Untouched, FirstFree, KidsOf, Shape, TreeOk, Born, Made, OneMore;
    var e, dirs := CreateDirEntry(dirname, ino, FT_DIRECTORY), tree.Keys + {ino as nat};
    NewEntry(dirname, ino, FT_DIRECTORY);
    TreeParts(sb, a, tree);
    MadeParts(sb, a, mid, b, dir, ino, i, dirname);
    BornTree(sb, a, mid, tree.Keys, ino, dir);
    BornDirectory(sb, a, mid, ino, dir);
    DotsBound(a, dir);
    GrownTree(sb, mid, b, dirs, dir, i, e);
    OneMoreName(mid, b, dirs, dir, e);
    ShapeMake(KidsOf(a, tree.Keys), KidsOf(mid, dirs), KidsOf(b, dirs), a.table.Keys, tree, dir, dirname, e);
    MoreDirectories(mid, b, dirs, dir, e);
    assert Planted(tree, dir, ino).Keys == dirs;
    TreeOfParts(sb, b, Planted(tree, dir, ino));
  }

  lemma MadeParts(sb: SuperBlock, a: Img, mid: Img, b: Img, dir: u32, ino: u32, i: nat, dirname: seq<byte>)
    requires Shaped(sb, a) && Shaped(sb, mid) && Shaped(sb, b) && dir in a.table && i < SLOTS && |dirname| < NAME_LEN
    requires Made(sb, a, mid, b, dir, ino, i, dirname) && 0 in a.table
    ensures (ino as nat) !in a.table && b.table.Keys == mid.table.Keys == a.table.Keys + {ino as nat}
    ensures Born(sb, a, mid, ino, dir) && mid.table[0] == a.table[0]
    ensures FirstFree(Slots(mid.disk, mid.table[dir]), i)
    ensures Grew(sb, mid, b, dir, i, CreateDirEntry(dirname, ino, FT_DIRECTORY))
    ensures forall d :: d in mid.table && d != dir as nat ==> Untouched(sb, mid, b, d)
  {
    hide View, OnDisk, Slots, Grew, FirstFree, DirSector, DirNode, FreeBlocks, Untouched;
    SameParent(sb, a, mid, ino, dir);
    UntouchedViews(sb, a, mid, 0);
  }

  // --- Removing ---

  /** Directory dir maps one name less, and inode ino is none of the directories. */
  ghost predicate OneLess(a: Img, b: Img, dirs: set<nat>, dir: nat, name: Name, ino: nat) {
    && dir in dirs && name in Children(a, dir) && dir != ino
    && (forall d :: d in dirs - {ino} ==> DirectoryAt(b, d))
    && Children(b, dir) == Children(a, dir) - {name}
    && forall d :: d in dirs - {ino} && d != dir ==> Children(b, d) == Children(a, d)
  }

  lemma OneNameLess(a: Img, b: Img, dirs: set<nat>, dir: nat, name: Name, ino: nat)
    requires OneLess(a, b, dirs, dir, name, ino)
    ensures NameGone(KidsOf(a, dirs), KidsOf(b, dirs - {ino}), dir, name, ino)
  {
    hide Children, DirectoryAt, KidsOf, Bound, EntryOf;
    KidsAre(a, dirs);
    KidsAre(b, dirs - {ino});
  }

  lemma ShrunkTree(sb: SuperBlock, a: Img, b: Img, dirs: set<nat>, dir: nat, i: nat, ino: nat)
    requires Shaped(sb, a) && Shaped(sb, b) && dir in dirs && 2 <= i < SLOTS && ino != dir && ino != 0
    requires forall d :: d in dirs ==> DirectoryAt(a, d) && d in a.table && (d != dir && d != ino ==> Untouched(sb, a, b, d))
    requires Slots(a.disk, a.table[dir])[i].Live() && Shrank(sb, a, b, dir, i)
    requires 0 in dirs && a.table[0].sectors[0] == sb.dataStartLba
    ensures OneLess(a, b, dirs, dir, Slots(a.disk, a.table[dir])[i].Name(), ino)
    ensures 0 in b.table && b.table[0].sectors[0] == sb.dataStartLba
  {
    hide Children, DirectoryAt, Slots, CString, Shrank, Untouched;
    ShrunkDirectory(sb, a, b, dir, i);
    SlotBound(a, dir, i);
    forall d | d in dirs && d != dir && d != ino
      ensures DirectoryAt(b, d) && Children(b, d) == Children(a, d)
    {
      SameDirectory(sb, a, b, d);
    }
    if dir == 0 {
      FirstLive(a, dir);
      ShrunkRoot(sb, a, b, dir, i);
    } else {
      UntouchedViews(sb, a, b, 0);
    }
  }

  lemma FirstLive(img: Img, d: nat)
    requires DirectoryAt(img, d)
    ensures d in img.table && img.table[d].Ok() && Slots(img.disk, img.table[d])[0].Live()
    ensures Slots(img.disk, img.table[d])[1].Live()
  {
    hide Slots, CString, DirOk;
  }

  /** A live slot but the first two binds a proper name. */
  lemma SlotBound(img: Img, d: nat, i: nat)
    requires DirectoryAt(img, d) && 2 <= i < SLOTS && d in img.table && img.table[d].Ok()
    requires Slots(img.disk, img.table[d])[i].Live()
    ensures var e := Slots(img.disk, img.table[d])[i];
            e.Name() in Children(img, d) && Children(img, d)[e.Name()] == e && !IsDots(e.Name())
  {
    hide Slots, CString, DirOk;
    ChildrenAre(img, d);
    BindingAt(Slots(img.disk, img.table[d]), i);
  }

  /** A bound name that is no dot is in a slot after the first two. */
  lemma BoundSlot(img: Img, d: nat, name: Name)
    requires DirectoryAt(img, d) && d in img.table && img.table[d].Ok() && name in Children(img, d) && !IsDots(name)
    ensures exists i :: 2 <= i < SLOTS && Slots(img.disk, img.table[d])[i].Live()
                        && Slots(img.disk, img.table[d])[i] == Children(img, d)[name]
    ensures Children(img, d)[name].Name() == name
  {
    hide Slots, CString, DirOk;
    ChildrenAre(img, d);
    var s := Slots(img.disk, img.table[d]);
    assert s[Find(s, name)] == Children(img, d)[name];
  }

  /** sys_unlink and sys_rmdir keep the tree, without the inode, and remove exactly its name. */
  lemma TreeAfterRemove(sb: SuperBlock, a: Img, b: Img, tree: map<nat, Place>, dir: nat, ino: u32, i: nat)
    requires TreeOk(sb, a, tree) && Shaped(sb, a) && Shaped(sb, b) && dir in tree && dir in a.table && 2 <= i < SLOTS
    requires NamesInode(Slots(a.disk, a.table[dir]), i, ino) && Removed(sb, a, b, dir, ino, i)
    requires (ino as nat) in tree ==> forall n :: n in Children(a, ino) ==> IsDots(n)
    ensures TreeOk(sb, b, tree - {ino as nat})
    ensures OneLess(a, b, tree.Keys, dir, Slots(a.disk, a.table[dir])[i].Name(), ino)
  {
    hide Children, DirectoryAt, Slots, CString, Shrank, Untouched, KidsOf, Shape, TreeOk, OneLess, Bound, EntryOf, IsDots;
    TreeParts(sb, a, tree);
    SlotBound(a, dir, i);
    var name := Slots(a.disk, a.table[dir])[i].Name();
    RemovableName(sb, a, tree, dir, name, ino);
    ShrunkTree(sb, a, b, tree.Keys, dir, i, ino);
    OneNameLess(a, b, tree.Keys, dir, name, ino);
    KidsAre(a, tree.Keys);
    ShapeRemove(KidsOf(a, tree.Keys), KidsOf(b, tree.Keys - {ino as nat}), a.table.Keys, tree, dir, name, ino);
    assert (tree - {ino as nat}).Keys == tree.Keys - {ino as nat};
    FewerDirectories(a, b, tree.Keys, dir, name, ino);
    TreeOfParts(sb, b, tree - {ino as nat});
  }

  lemma FewerDirectories(a: Img, b: Img, dirs: set<nat>, dir: nat, name: Name, ino: nat)
    requires OneLess(a, b, dirs, dir, name, ino)
    ensures forall d :: d in dirs - {ino} ==> DirectoryAt(b, d)
  {
    hide Children, DirectoryAt;
  }

  lemma RemovableName(sb: SuperBlock, img: Img, tree: map<nat, Place>, dir: nat, name: Name, ino: u32)
    requires TreeOk(sb, img, tree) && dir in tree && name in Children(img, dir) && !IsDots(name)
    requires Children(img, dir)[name].iNo == ino
    ensures ino != 0 && ino as nat != dir && (ino as nat) in img.table
    ensures Calls(KidsOf(img, tree.Keys), dir, name, ino)
  {
    hide Children, DirectoryAt, KidsOf, Bound, EntryOf, TreeOk;
    TreeEntry(sb, img, tree, dir, name);
  }

  /** "." names the directory and ".." its parent, and no other entry names either. */
  lemma DotSlots(sb: SuperBlock, img: Img, tree: map<nat, Place>, dir: nat)
    requires TreeOk(sb, img, tree) && dir in tree
    ensures dir in img.table && img.table[dir].Ok() && DirectoryAt(img, dir)
    ensures Slots(img.disk, img.table[dir])[0].iNo == dir && Slots(img.disk, img.table[dir])[1].iNo == tree[dir].up
  {
    hide Children, KidsOf, Bound, EntryOf, TreeOk, Slots, CString, DirOk;
    TreeDirectory(sb, img, tree, dir);
    ChildrenAre(img, dir);
    var s := Slots(img.disk, img.table[dir]);
    BindingAt(s, 0);
    BindingAt(s, 1);
    TreeEntry(sb, img, tree, dir, s[0].Name());
    TreeEntry(sb, img, tree, dir, s[1].Name());
  }

  lemma NotUpwards(kids: Kids, inodes: set<nat>, tree: map<nat, Place>, dir: nat, name: Name, ino: nat)
    requires Shape(kids, inodes, tree) && Calls(kids, dir, name, ino)
    ensures dir in tree && ino != dir && ino != tree[dir].up
  {
    hide EntryOk, Bound, EntryOf, Calls, OneName, AllNamed;
    NotRoot(kids, inodes, tree, dir, name, ino);
    if dir != 0 {
      var own := NamedIn(kids, inodes, tree, dir);
    }
  }

  /** What a proper name guarantees to the code that deletes it by inode number. */
  lemma NamedProperly(sb: SuperBlock, img: Img, tree: map<nat, Place>, dir: nat, name: Name, ino: u32)
    requires TreeOk(sb, img, tree) && dir in tree && name in Children(img, dir) && !IsDots(name)
    requires Children(img, dir)[name].iNo == ino
    ensures ino != 0 && ino as nat != dir && (ino as nat) in img.table && DirectoryAt(img, dir)
    ensures dir in img.table && img.table[dir].Ok() && NamedOnce(Slots(img.disk, img.table[dir]), ino)
    ensures exists i :: 0 <= i < SLOTS && NamesInode(Slots(img.disk, img.table[dir]), i, ino)
    ensures forall i :: 0 <= i < SLOTS && NamesInode(Slots(img.disk, img.table[dir]), i, ino) ==>
              2 <= i && Slots(img.disk, img.table[dir])[i].Name() == name
  {
    hide Children, KidsOf, Bound, EntryOf, TreeOk, Slots, CString, DirOk, IsDots, Shape, DirectoryAt, NamedOnce;
    TreeParts(sb, img, tree);
    RemovableName(sb, img, tree, dir, name, ino);
    DotSlots(sb, img, tree, dir);
    NotUpwards(KidsOf(img, tree.Keys), img.table.Keys, tree, dir, name, ino);
    BoundSlot(img, dir, name);
    var s := Slots(img.disk, img.table[dir]);
    var k :| 2 <= k < SLOTS && s[k].Live() && s[k] == Children(img, dir)[name];
    assert NamesInode(s, k, ino);
    forall i | 0 <= i < SLOTS && NamesInode(s, i, ino)
      ensures 2 <= i && s[i].Name() == name
    {
      SlotBound(img, dir, i);
      RemovableName(sb, img, tree, dir, s[i].Name(), ino);
      SameName(sb, img, tree, dir, s[i].Name(), dir, name, ino);
    }
    ChildrenAre(img, dir);
    OneSlotOnly(s, name, ino);
  }

  lemma OneSlotOnly(s: seq<DirEntry>, name: Name, ino: u32)
    requires NamesOk(s) && forall i :: 0 <= i < |s| && NamesInode(s, i, ino) ==> s[i].Name() == name
    ensures NamedOnce(s, ino)
  {
    hide CString;
  }

  /** Whether a directory has anything but its dots shows in its slots. */
  lemma OnlyDots(img: Img, d: nat)
    requires DirectoryAt(img, d) && d in img.table && img.table[d].Ok()
    ensures (forall n :: n in Children(img, d) ==> IsDots(n)) <==>
            forall i :: 2 <= i < SLOTS ==> !Slots(img.disk, img.table[d])[i].Live()
  {
    hide Children, Slots, CString, DirectoryAt, IsDots;
    var s := Slots(img.disk, img.table[d]);
    if i :| 2 <= i < SLOTS && s[i].Live() {
      SlotBound(img, d, i);
      assert s[i].Name() in Children(img, d);
    } else {
      forall n | n in Children(img, d)
        ensures IsDots(n)
      {
        if !IsDots(n) {
          BoundSlot(img, d, n);
        }
      }
    }
  }
}
