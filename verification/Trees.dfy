/** The directory tree that every operation of the file system keeps: every entry names a live inode, every live inode but
    the root has exactly one name, and so exactly one path without "." and ".." leads to it. */
module Trees {
  import opened Layout
  import opened BlockMap
  import opened DirEntries
  import opened Directories
  import opened NewDirs
  import opened Paths
  import opened Search

  /** Where a directory is: its parent and how deep below the root. */
  datatype Place = Place(up: nat, depth: nat)

  /** What each directory maps names to. */
  type Kids = map<nat, map<Name, DirEntry>>

  predicate IsDots(name: Name) {
    name == [DOT] || name == [DOT, DOT]
  }

  predicate Bound(kids: Kids, d: nat, name: Name) {
    d in kids && name in kids[d]
  }

  function EntryOf(kids: Kids, d: nat, name: Name): DirEntry
    requires Bound(kids, d, name)
  {
    kids[d][name]
  }

  /** What entry e of a name in directory d may be: "." is d, ".." its parent, and any other name is that of a directory
      whose parent is d, or of a live inode that is no directory. */
  predicate EntryOk(e: DirEntry, inodes: set<nat>, tree: map<nat, Place>, d: nat, name: Name)
    requires d in tree
  {
    if name == [DOT] then e.iNo == d && e.fType == FT_DIRECTORY
    else if name == [DOT, DOT] then e.iNo == tree[d].up && e.fType == FT_DIRECTORY
    else
      && (e.iNo as nat) in inodes && e.iNo != 0
      && ((e.fType == FT_DIRECTORY && (e.iNo as nat) in tree && tree[e.iNo] == Place(d, tree[d].depth + 1))
          || (e.fType == FT_REGULAR && (e.iNo as nat) !in tree))
  }

  /** Name `name` of directory d is a proper one, for inode i. */
  predicate Calls(kids: Kids, d: nat, name: Name, i: nat) {
    Bound(kids, d, name) && !IsDots(name) && EntryOf(kids, d, name).iNo == i
  }

  ghost predicate EntriesOk(kids: Kids, inodes: set<nat>, tree: map<nat, Place>) {
    forall d: nat, name: Name :: d in tree && Bound(kids, d, name) ==> EntryOk(EntryOf(kids, d, name), inodes, tree, d, name)
  }

  ghost predicate OneName(kids: Kids) {
    forall d: nat, m: Name, e: nat, n: Name, i: nat :: Calls(kids, d, m, i) && Calls(kids, e, n, i) ==> d == e && m == n
  }

  /** Every inode but the root has a proper name. */
  ghost predicate AllNamed(kids: Kids, inodes: set<nat>) {
    forall i: nat :: i in inodes && i != 0 ==> exists d: nat, name: Name :: Calls(kids, d, name, i)
  }

  ghost predicate Rooted(kids: Kids, inodes: set<nat>, tree: map<nat, Place>) {
    && tree.Keys <= inodes && 0 in tree && tree[0] == Place(0, 0)
    && (forall d :: d in tree ==> tree[d].up in tree)
    && (forall d: nat, name: Name :: Bound(kids, d, name) ==> d in tree)
  }

  /** The directories are those of `tree`; every entry is as it may be; and every inode but the root has exactly one name
      that is not "." or "..". */
  ghost predicate Shape(kids: Kids, inodes: set<nat>, tree: map<nat, Place>) {
    Rooted(kids, inodes, tree) && EntriesOk(kids, inodes, tree) && OneName(kids) && AllNamed(kids, inodes)
  }

  // --- What the operations do to the shape ---

  /** Directory dir has one more entry. */
  ghost predicate NameAdded(kids: Kids, kids': Kids, dir: nat, name: Name, e: DirEntry) {
    && !Bound(kids, dir, name) && Bound(kids', dir, name) && EntryOf(kids', dir, name) == e
    && (forall d: nat, n: Name :: Bound(kids', d, n) <==> Bound(kids, d, n) || (d == dir && n == name))
    && (forall d: nat, n: Name :: Bound(kids, d, n) ==> EntryOf(kids', d, n) == EntryOf(kids, d, n))
  }

  /** There is a new directory ino with "." and ".." only. */
  ghost predicate DotsAdded(kids: Kids, kids': Kids, ino: nat, parent: nat) {
    && (forall n: Name :: !Bound(kids, ino, n))
    && (forall d: nat, n: Name :: Bound(kids', d, n) <==> Bound(kids, d, n) || (d == ino && IsDots(n)))
    && (forall d: nat, n: Name :: Bound(kids, d, n) ==> EntryOf(kids', d, n) == EntryOf(kids, d, n))
    && (forall n: Name | IsDots(n) && Bound(kids', ino, n) ::
          EntryOf(kids', ino, n).iNo == (if n == [DOT] then ino else parent) && EntryOf(kids', ino, n).fType == FT_DIRECTORY)
  }

  /** Directory dir has one entry less, and directory ino, if there is one, none at all. */
  ghost predicate NameGone(kids: Kids, kids': Kids, dir: nat, name: Name, ino: nat) {
    && Bound(kids, dir, name)
    && (forall d: nat, n: Name :: Bound(kids', d, n) <==> Bound(kids, d, n) && !(d == dir && n == name) && d != ino)
    && (forall d: nat, n: Name :: Bound(kids', d, n) ==> EntryOf(kids', d, n) == EntryOf(kids, d, n))
  }

  /** An inode that is not live has no name. */
  lemma NoName(kids: Kids, inodes: set<nat>, tree: map<nat, Place>, i: nat)
    requires Rooted(kids, inodes, tree) && EntriesOk(kids, inodes, tree) && i !in inodes
    ensures forall d: nat, n: Name :: !Calls(kids, d, n, i)
  {
    hide Bound, EntryOf;
    forall d: nat, n: Name
      ensures !Calls(kids, d, n, i)
    {
      assert Bound(kids, d, n) ==> EntryOk(EntryOf(kids, d, n), inodes, tree, d, n);
    }
  }

  lemma NamesAdded(kids: Kids, kids': Kids, inodes: set<nat>, dir: nat, name: Name, e: DirEntry)
    requires OneName(kids) && AllNamed(kids, inodes) && NameAdded(kids, kids', dir, name, e)
    requires (forall d: nat, n: Name :: !Calls(kids, d, n, e.iNo)) && !IsDots(name)
    ensures OneName(kids') && AllNamed(kids', inodes + {e.iNo as nat})
  {
    hide Bound, EntryOf, IsDots;
    forall d: nat, n: Name, i: nat
      ensures Calls(kids', d, n, i) <==> Calls(kids, d, n, i) || (d == dir && n == name && i == e.iNo)
    {
      assert Bound(kids, d, n) ==> !(d == dir && n == name);
    }
    hide Calls, NameAdded;
    var inodes' := inodes + {e.iNo as nat};
    forall i: nat | i in inodes' && i != 0
      ensures exists d: nat, n: Name :: Calls(kids', d, n, i)
    {
      if i == e.iNo as nat {
        assert Calls(kids', dir, name, i);
      } else {
        var d: nat, n: Name :| Calls(kids, d, n, i);
        assert Calls(kids', d, n, i);
      }
    }
  }

  /** A new file keeps the shape. */
  lemma ShapeAdd(kids: Kids, kids': Kids, inodes: set<nat>, tree: map<nat, Place>, dir: nat, name: Name, e: DirEntry)
    requires Shape(kids, inodes, tree) && dir in tree && NameAdded(kids, kids', dir, name, e) && !IsDots(name)
    requires e.fType == FT_REGULAR && (e.iNo as nat) !in inodes
    ensures Shape(kids', inodes + {e.iNo as nat}, tree)
  {
    hide Bound, EntryOf, Calls, OneName, AllNamed;
    NoName(kids, inodes, tree, e.iNo);
    NamesAdded(kids, kids', inodes, dir, name, e);
    forall d: nat, n: Name | d in tree && Bound(kids', d, n)
      ensures EntryOk(EntryOf(kids', d, n), inodes + {e.iNo as nat}, tree, d, n)
    {
      assert !(d == dir && n == name) ==> EntryOk(EntryOf(kids, d, n), inodes, tree, d, n);
    }
  }

  lemma DotsNameNothing(kids: Kids, mid: Kids, inodes: set<nat>, ino: nat, parent: nat)
    requires OneName(kids) && AllNamed(kids, inodes) && DotsAdded(kids, mid, ino, parent)
    requires forall d: nat, n: Name :: !Calls(kids, d, n, ino)
    ensures OneName(mid) && AllNamed(mid, inodes) && forall d: nat, n: Name :: !Calls(mid, d, n, ino)
  {
    hide Bound, EntryOf, IsDots;
    forall d: nat, n: Name, i: nat
      ensures Calls(mid, d, n, i) <==> Calls(kids, d, n, i)
    {
      assert Bound(kids, d, n) ==> d != ino;
    }
    hide Calls, DotsAdded;
    forall i: nat | i in inodes && i != 0
      ensures exists d: nat, n: Name :: Calls(mid, d, n, i)
    {
      var d: nat, n: Name :| Calls(kids, d, n, i);
      assert Calls(mid, d, n, i);
    }
  }

  /** A new directory, with its dots and then its name, keeps the shape; it is a level below its parent. */
  lemma ShapeMake(kids: Kids, mid: Kids, kids': Kids, inodes: set<nat>, tree: map<nat, Place>, dir: nat, name: Name, e: DirEntry)
    requires Shape(kids, inodes, tree) && dir in tree && !IsDots(name)
    requires e.fType == FT_DIRECTORY && (e.iNo as nat) !in inodes
    requires DotsAdded(kids, mid, e.iNo, dir) && NameAdded(mid, kids', dir, name, e)
    ensures Shape(kids', inodes + {e.iNo as nat}, tree[e.iNo as nat := Place(dir, tree[dir].depth + 1)])
  {
    hide Bound, EntryOf, Calls, OneName, AllNamed;
    NoName(kids, inodes, tree, e.iNo);
    DotsNameNothing(kids, mid, inodes, e.iNo, dir);
    NamesAdded(mid, kids', inodes, dir, name, e);
    var inodes', tree' := inodes + {e.iNo as nat}, tree[e.iNo as nat := Place(dir, tree[dir].depth + 1)];
    forall d: nat, n: Name | d in tree' && Bound(kids', d, n)
      ensures EntryOk(EntryOf(kids', d, n), inodes', tree', d, n)
    {
      if Bound(kids, d, n) {
        assert EntryOk(EntryOf(kids, d, n), inodes, tree, d, n);
      }
    }
  }

  lemma NamesGone(kids: Kids, kids': Kids, inodes: set<nat>, tree: map<nat, Place>, dir: nat, name: Name, ino: nat)
    requires OneName(kids) && AllNamed(kids, inodes) && NameGone(kids, kids', dir, name, ino) && Calls(kids, dir, name, ino)
    requires forall n: Name :: Bound(kids, ino, n) ==> IsDots(n)
    ensures OneName(kids') && AllNamed(kids', inodes - {ino})
  {
    hide Bound, EntryOf, IsDots;
    forall d: nat, n: Name, i: nat
      ensures Calls(kids', d, n, i) <==> Calls(kids, d, n, i) && i != ino
    {
      assert Bound(kids, ino, n) ==> IsDots(n);
      if Calls(kids, d, n, i) && i == ino {
        assert d == dir && n == name;
      }
    }
    hide Calls, NameGone;
    forall i: nat | i in inodes - {ino} && i != 0
      ensures exists d: nat, n: Name :: Calls(kids', d, n, i)
    {
      var d: nat, n: Name :| Calls(kids, d, n, i);
      assert Calls(kids', d, n, i);
    }
  }

  /** Removing a file, or a directory that binds its dots only, keeps the shape. */
  lemma ShapeRemove(kids: Kids, kids': Kids, inodes: set<nat>, tree: map<nat, Place>, dir: nat, name: Name, ino: nat)
    requires Shape(kids, inodes, tree) && NameGone(kids, kids', dir, name, ino) && Calls(kids, dir, name, ino)
    requires forall n: Name :: Bound(kids, ino, n) ==> IsDots(n)
    ensures Shape(kids', inodes - {ino}, tree - {ino})
  {
    hide Bound, EntryOf, Calls, OneName, AllNamed;
    NamesGone(kids, kids', inodes, tree, dir, name, ino);
    NotRoot(kids, inodes, tree, dir, name, ino);
    forall d | d in tree - {ino}
      ensures tree[d].up in tree - {ino}
    {
      NoChildOf(kids, inodes, tree, d, ino);
    }
    forall d: nat, n: Name | d in tree - {ino} && Bound(kids', d, n)
      ensures EntryOk(EntryOf(kids', d, n), inodes - {ino}, tree - {ino}, d, n)
    {
      assert EntryOk(EntryOf(kids, d, n), inodes, tree, d, n);
      if !IsDots(n) {
        StillNamed(kids, dir, name, d, n, ino);
      }
    }
  }

  lemma StillNamed(kids: Kids, dir: nat, name: Name, d: nat, n: Name, ino: nat)
    requires OneName(kids) && Calls(kids, dir, name, ino) && Bound(kids, d, n) && !(d == dir && n == name) && !IsDots(n)
    ensures EntryOf(kids, d, n).iNo != ino
  {
    if EntryOf(kids, d, n).iNo as nat == ino {
      assert Calls(kids, d, n, ino);
    }
  }

  /** A named inode is not the root; a directory's name is in its parent. */
  lemma NotRoot(kids: Kids, inodes: set<nat>, tree: map<nat, Place>, d: nat, name: Name, i: nat)
    requires Rooted(kids, inodes, tree) && EntriesOk(kids, inodes, tree) && Calls(kids, d, name, i)
    ensures i != 0 && i in inodes && d in tree && EntryOk(EntryOf(kids, d, name), inodes, tree, d, name)
    ensures i in tree ==> tree[i] == Place(d, tree[d].depth + 1)
  {
    hide Bound, EntryOf;
  }

  /** The name of directory d is in its parent. */
  lemma NamedIn(kids: Kids, inodes: set<nat>, tree: map<nat, Place>, d: nat) returns (name: Name)
    requires Shape(kids, inodes, tree) && d in tree && d != 0
    ensures Calls(kids, tree[d].up, name, d) && tree[d].up in tree && tree[d].depth == tree[tree[d].up].depth + 1
  {
    hide Bound, EntryOf, Calls, EntriesOk;
    var u: nat;
    u, name :| Calls(kids, u, name, d);
    NotRoot(kids, inodes, tree, u, name, d);
  }

  lemma NoChildOf(kids: Kids, inodes: set<nat>, tree: map<nat, Place>, d: nat, ino: nat)
    requires Shape(kids, inodes, tree) && d in tree && ino != 0
    requires forall n: Name :: Bound(kids, ino, n) ==> IsDots(n)
    ensures tree[d].up != ino
  {
    hide EntryOf, EntriesOk, OneName, AllNamed, Bound;
    if d != 0 {
      var name := NamedIn(kids, inodes, tree, d);
    }
  }

  // --- The tree of an image ---

  /** What each directory of a set maps names to. */
  ghost function KidsOf(img: Img, dirs: set<nat>): Kids {
    map d | d in dirs :: Children(img, d)
  }

  lemma KidsAre(img: Img, dirs: set<nat>)
    ensures forall d: nat, n: Name :: Bound(KidsOf(img, dirs), d, n) <==> d in dirs && n in Children(img, d)
    ensures forall d: nat, n: Name :: Bound(KidsOf(img, dirs), d, n) ==> EntryOf(KidsOf(img, dirs), d, n) == Children(img, d)[n]
  {
    hide Children;
  }

  /** Inode d is a directory in order whose first two slots are "." and "..". */
  ghost predicate DirectoryAt(img: Img, d: nat) {
    && d in img.table && img.table[d].Ok() && DirOk(img.disk, img.table[d])
    && var s := Slots(img.disk, img.table[d]);
       s[0].Live() && s[0].Name() == [DOT] && s[1].Live() && s[1].Name() == [DOT, DOT]
  }

  /** The directories of the tree are in order, the root keeps its first sector, and the tree has its shape. */
  ghost predicate TreeOk(sb: SuperBlock, img: Img, tree: map<nat, Place>) {
    && (forall d :: d in tree ==> DirectoryAt(img, d))
    && 0 in img.table && img.table[0].Ok() && img.table[0].sectors[0] == sb.dataStartLba
    && Shape(KidsOf(img, tree.Keys), img.table.Keys, tree)
  }

  lemma ShapeEntry(kids: Kids, inodes: set<nat>, tree: map<nat, Place>, d: nat, n: Name)
    requires Shape(kids, inodes, tree) && Bound(kids, d, n)
    ensures d in tree && EntryOk(EntryOf(kids, d, n), inodes, tree, d, n)
  {
    hide EntryOk, EntryOf, Bound;
  }

  /** One entry of a directory of the tree */
  lemma TreeEntry(sb: SuperBlock, img: Img, tree: map<nat, Place>, d: nat, n: Name)
    requires TreeOk(sb, img, tree) && d in tree && n in Children(img, d)
    ensures EntryOk(Children(img, d)[n], img.table.Keys, tree, d, n)
    ensures Bound(KidsOf(img, tree.Keys), d, n) && EntryOf(KidsOf(img, tree.Keys), d, n) == Children(img, d)[n]
  {
    hide Children, DirectoryAt, Shape, EntryOk, Bound, EntryOf;
    KidsAre(img, tree.Keys);
    ShapeEntry(KidsOf(img, tree.Keys), img.table.Keys, tree, d, n);
  }

  lemma TreeDirectory(sb: SuperBlock, img: Img, tree: map<nat, Place>, d: nat)
    requires TreeOk(sb, img, tree) && d in tree
    ensures DirectoryAt(img, d) && d in img.table && img.table[d].Ok() && DirOk(img.disk, img.table[d])
  {
    hide Shape, DirOk, Slots, CString;
  }

  /** Path walks may rely on the tree. */
  lemma TreeIsWalkable(sb: SuperBlock, img: Img, tree: map<nat, Place>)
    requires TreeOk(sb, img, tree)
    ensures DirTree(img, tree.Keys)
  {
    hide Children, TreeOk, DirectoryAt, DirOk;
    TreeKeys(sb, img, tree);
    forall d: nat | d in tree
      ensures d in img.table && img.table[d].Ok() && DirOk(img.disk, img.table[d])
    {
      TreeDirectory(sb, img, tree, d);
    }
    forall d: nat, name: Name | d in tree && name in Children(img, d)
      ensures var e := Children(img, d)[name];
              e.fType == FT_REGULAR || (e.fType == FT_DIRECTORY && (e.iNo as nat) in tree)
    {
      TreeEntry(sb, img, tree, d, name);
    }
  }

  lemma TreeKeys(sb: SuperBlock, img: Img, tree: map<nat, Place>)
    requires TreeOk(sb, img, tree)
    ensures 0 in tree && tree.Keys <= img.table.Keys && forall d :: d in tree ==> tree[d].up in tree
  {
    hide Children, EntriesOk, OneName, AllNamed, DirectoryAt, KidsOf;
  }

  // --- Paths and inodes ---

  predicate DotFree(cs: seq<Name>) {
    forall k :: 0 <= k < |cs| ==> !IsDots(cs[k])
  }

  /** A walk that arrives has gone through the directory that holds its last component. */
  lemma {:induction false} WalkLast(img: Img, dirs: set<nat>, dir: nat, parent: nat, cs: seq<Name>)
    requires DirTree(img, dirs) && dir in dirs && |cs| > 0 && Walk(img, dir, parent, cs).Reached?
    ensures var t := Walk(img, dir, parent, cs);
            var before := Walk(img, dir, parent, cs[..|cs| - 1]);
            && before.Reached? && before.fType == FT_DIRECTORY && before.iNo == t.parent && t.parent in dirs
            && cs[|cs| - 1] in Children(img, t.parent)
            && Children(img, t.parent)[cs[|cs| - 1]].iNo == t.iNo && Children(img, t.parent)[cs[|cs| - 1]].fType == t.fType
    decreases |cs|
  {
    hide Children, DirTree;
    assert [cs[0]] + cs[1..] == cs;
    WalkStep(img, dirs, dir, parent, cs[0], cs[1..]);
    if |cs| > 1 {
      var e := Children(img, dir)[cs[0]];
      WalkLast(img, dirs, e.iNo, dir, cs[1..]);
      assert cs[1..][..|cs| - 2] == cs[..|cs| - 1][1..];
      assert [cs[0]] + cs[..|cs| - 1][1..] == cs[..|cs| - 1];
      WalkStep(img, dirs, dir, parent, cs[0], cs[..|cs| - 1][1..]);
    }
  }

  /** A walk to a directory can be taken one component further. */
  lemma {:induction false} WalkFurther(img: Img, dirs: set<nat>, dir: nat, parent: nat, cs: seq<Name>, name: Name)
    requires DirTree(img, dirs) && dir in dirs
    requires Walk(img, dir, parent, cs).Reached? && Walk(img, dir, parent, cs).fType == FT_DIRECTORY
    requires name in Children(img, Walk(img, dir, parent, cs).iNo)
    ensures Walk(img, dir, parent, cs).iNo in dirs
    ensures var p := Walk(img, dir, parent, cs).iNo;
            var e := Children(img, p)[name];
            Walk(img, dir, parent, cs + [name]) == Reached(e.iNo, e.fType, p)
    decreases |cs|
  {
    hide Children, DirTree;
    if |cs| == 0 {
      assert [name] + [] == cs + [name];
      WalkStep(img, dirs, dir, parent, name, []);
    } else {
      assert [cs[0]] + cs[1..] == cs;
      WalkStep(img, dirs, dir, parent, cs[0], cs[1..]);
      WalkFurther(img, dirs, Children(img, dir)[cs[0]].iNo, dir, cs[1..], name);
      assert [cs[0]] + (cs[1..] + [name]) == cs + [name];
      WalkStep(img, dirs, dir, parent, cs[0], cs[1..] + [name]);
    }
  }

  /** Two paths without "." and ".." that lead to the same inode are the same path. */
  lemma {:induction false} OnePath(sb: SuperBlock, img: Img, tree: map<nat, Place>, cs: seq<Name>, ds: seq<Name>)
    requires TreeOk(sb, img, tree) && DotFree(cs) && DotFree(ds)
    requires Walk(img, 0, 0, cs).Reached? && Walk(img, 0, 0, ds).Reached?
    requires Walk(img, 0, 0, cs).iNo == Walk(img, 0, 0, ds).iNo
    ensures cs == ds
    decreases |cs|
  {
    hide Children, Bound, EntryOf, Walk, TreeOk, DirTree, IsDots;
    TreeRoot(sb, img, tree);
    WalkNowhere(img);
    if |cs| > 0 {
      LastName(sb, img, tree, cs);
    }
    if |ds| > 0 {
      LastName(sb, img, tree, ds);
    }
    if |cs| > 0 && |ds| > 0 {
      SameName(sb, img, tree, Walk(img, 0, 0, cs).parent, cs[|cs| - 1], Walk(img, 0, 0, ds).parent, ds[|ds| - 1],
               Walk(img, 0, 0, cs).iNo);
      OnePath(sb, img, tree, cs[..|cs| - 1], ds[..|ds| - 1]);
      assert cs == cs[..|cs| - 1] + [cs[|cs| - 1]] && ds == ds[..|ds| - 1] + [ds[|ds| - 1]];
    }
  }

  lemma TreeRoot(sb: SuperBlock, img: Img, tree: map<nat, Place>)
    requires TreeOk(sb, img, tree)
    ensures DirTree(img, tree.Keys) && 0 in tree && tree.Keys <= img.table.Keys
  {
    hide TreeOk, DirTree;
    TreeKeys(sb, img, tree);
    TreeIsWalkable(sb, img, tree);
  }

  lemma WalkNowhere(img: Img)
    ensures Walk(img, 0, 0, []) == Reached(0, FT_DIRECTORY, 0)
  {
  }

  /** The last component of a path that arrives is a name of the inode reached, which is not the root. */
  lemma LastName(sb: SuperBlock, img: Img, tree: map<nat, Place>, cs: seq<Name>)
    requires TreeOk(sb, img, tree) && |cs| > 0 && Walk(img, 0, 0, cs).Reached? && !IsDots(cs[|cs| - 1])
    ensures var t := Walk(img, 0, 0, cs);
            && t.iNo != 0 && t.iNo in img.table && t.parent in tree
            && (t.fType == FT_DIRECTORY <==> t.iNo in tree) && (t.fType == FT_REGULAR <==> t.iNo !in tree)
            && Calls(KidsOf(img, tree.Keys), t.parent, cs[|cs| - 1], t.iNo)
            && Walk(img, 0, 0, cs[..|cs| - 1]).Reached? && Walk(img, 0, 0, cs[..|cs| - 1]).iNo == t.parent
  {
    hide Children, Bound, EntryOf, Walk, TreeOk, DirTree, KidsOf;
    TreeRoot(sb, img, tree);
    WalkLast(img, tree.Keys, 0, 0, cs);
    TreeEntry(sb, img, tree, Walk(img, 0, 0, cs).parent, cs[|cs| - 1]);
  }

  lemma SameName(sb: SuperBlock, img: Img, tree: map<nat, Place>, d: nat, m: Name, e: nat, n: Name, i: nat)
    requires TreeOk(sb, img, tree)
    requires Calls(KidsOf(img, tree.Keys), d, m, i) && Calls(KidsOf(img, tree.Keys), e, n, i)
    ensures d == e && m == n
  {
    hide KidsOf, Calls, EntriesOk, AllNamed, DirectoryAt;
  }

  /** Every directory is reached by a path without "." and "..". */
  lemma {:induction false} PathTo(sb: SuperBlock, img: Img, tree: map<nat, Place>, d: nat) returns (cs: seq<Name>)
    requires TreeOk(sb, img, tree) && d in tree
    ensures DotFree(cs) && Walk(img, 0, 0, cs).Reached?
    ensures Walk(img, 0, 0, cs).iNo == d && Walk(img, 0, 0, cs).fType == FT_DIRECTORY
    decreases tree[d].depth
  {
    hide Children, Bound, EntryOf, Walk, TreeOk, DirTree, IsDots, KidsOf;
    WalkNowhere(img);
    TreeRoot(sb, img, tree);
    if d == 0 {
      return [];
    }
    var name: Name, p: nat := NameOf(sb, img, tree, d);
    var before := PathTo(sb, img, tree, p);
    cs := before + [name];
    WalkFurther(img, tree.Keys, 0, 0, before, name);
  }

  /** The name of a live inode, and where it is. */
  lemma NameOf(sb: SuperBlock, img: Img, tree: map<nat, Place>, i: nat) returns (name: Name, p: nat)
    requires TreeOk(sb, img, tree) && i in img.table && i != 0
    ensures p in tree && !IsDots(name) && name in Children(img, p) && Children(img, p)[name].iNo == i
    ensures i in tree ==> Children(img, p)[name].fType == FT_DIRECTORY && tree[p].depth < tree[i].depth
    ensures i !in tree ==> Children(img, p)[name].fType == FT_REGULAR
  {
    hide Children, DirectoryAt, KidsOf, Bound, EntryOf;
    KidsAre(img, tree.Keys);
    p, name :| Calls(KidsOf(img, tree.Keys), p, name, i);
    NotRoot(KidsOf(img, tree.Keys), img.table.Keys, tree, p, name, i);
  }

  /** Every live inode is reached by one path without "." and "..", and by no other. */
  lemma ExactlyOnePath(sb: SuperBlock, img: Img, tree: map<nat, Place>, i: nat)
    requires TreeOk(sb, img, tree) && i in img.table
    ensures exists cs :: DotFree(cs) && Walk(img, 0, 0, cs).Reached? && Walk(img, 0, 0, cs).iNo == i
    ensures forall cs, ds | DotFree(cs) && DotFree(ds) && Walk(img, 0, 0, cs).Reached? && Walk(img, 0, 0, ds).Reached? ::
              Walk(img, 0, 0, cs).iNo == i == Walk(img, 0, 0, ds).iNo ==> cs == ds
  {
    hide Children, Walk, TreeOk, DirTree, IsDots;
    var cs: seq<Name> := [];
    WalkNowhere(img);
    if i != 0 {
      var name: Name, p: nat := NameOf(sb, img, tree, i);
      var before := PathTo(sb, img, tree, p);
      cs := before + [name];
      TreeRoot(sb, img, tree);
      WalkFurther(img, tree.Keys, 0, 0, before, name);
    }
    assert DotFree(cs) && Walk(img, 0, 0, cs).Reached? && Walk(img, 0, 0, cs).iNo == i;
    forall xs, ys | DotFree(xs) && DotFree(ys) && Walk(img, 0, 0, xs).Reached? && Walk(img, 0, 0, ys).Reached?
      ensures Walk(img, 0, 0, xs).iNo == i == Walk(img, 0, 0, ys).iNo ==> xs == ys
    {
      if Walk(img, 0, 0, xs).iNo == i == Walk(img, 0, 0, ys).iNo {
        OnePath(sb, img, tree, xs, ys);
      }
    }
  }
}
