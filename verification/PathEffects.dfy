/** What making and removing files and directories means for paths: which paths lead somewhere before and after. */
module PathEffects {
  import opened Words
  import opened Layout
  import opened BlockMap
  import opened DirEntries
  import opened NewDirs
  import opened Lifecycle
  import opened Paths
  import opened Search
  import opened Trees
  import opened TreeSteps
  import opened Syscalls

  /** The directories of `small` bind what those of `big` do, except for one name and for the inode that it names. */
  ghost predicate Without(big: Img, small: Img, dirs: set<nat>, dir: nat, name: Name, ino: nat) {
    && dir in dirs && dir != ino && name in Children(big, dir) && !IsDots(name) && Children(big, dir)[name].iNo == ino
    && Children(small, dir) == Children(big, dir) - {name}
    && (forall d :: d in dirs && d != dir && d != ino ==> Children(small, d) == Children(big, d))
    && (ino in dirs ==> forall n :: n in Children(big, ino) ==> IsDots(n))
  }

  /** The two walks along a path agree, except that only the one in `big` can arrive at the inode. */
  ghost predicate Agree(big: Img, small: Img, ino: nat, d: nat, parent: nat, cs: seq<Name>) {
    var t, t' := Walk(big, d, parent, cs), Walk(small, d, parent, cs);
    (t'.Reached? <==> t.Reached? && t.iNo != ino) && (t'.Reached? ==> t' == t)
  }

  /** An entry bound in both, to something other than the inode */
  lemma OtherEntry(sb: SuperBlock, big: Img, small: Img, tree: map<nat, Place>, dir: nat, name: Name, ino: nat, d: nat, n: Name)
    requires TreeOk(sb, big, tree) && Without(big, small, tree.Keys, dir, name, ino)
    requires d in tree && d != ino && n in Children(big, d) && !(d == dir && n == name) && !IsDots(n)
    ensures n in Children(small, d) && Children(small, d)[n] == Children(big, d)[n]
    ensures Children(big, d)[n].iNo != ino
    ensures var e := Children(big, d)[n]; e.fType == FT_REGULAR || (e.fType == FT_DIRECTORY && (e.iNo as nat) in tree)
  {
    hide Children, TreeOk, KidsOf, Bound, EntryOf;
    TreeEntry(sb, big, tree, d, n);
    TreeEntry(sb, big, tree, dir, name);
    if Children(big, d)[n].iNo as nat == ino {
      SameName(sb, big, tree, d, n, dir, name, ino);
    }
  }

  lemma NamedType(sb: SuperBlock, img: Img, tree: map<nat, Place>, d: nat, n: Name)
    requires TreeOk(sb, img, tree) && d in tree && n in Children(img, d) && !IsDots(n)
    ensures var e := Children(img, d)[n];
            e.iNo != 0 && (e.fType == FT_REGULAR || (e.fType == FT_DIRECTORY && (e.iNo as nat) in tree))
  {
    hide Children, TreeOk, KidsOf, Bound, EntryOf;
    TreeEntry(sb, img, tree, d, n);
  }

  /** A walk cannot go on from a directory that binds its dots only. */
  lemma DotsOnly(img: Img, d: nat, parent: nat, cs: seq<Name>)
    requires (forall n :: n in Children(img, d) ==> IsDots(n)) && DotFree(cs)
    ensures Walk(img, d, parent, cs) == if cs == [] then Reached(d, FT_DIRECTORY, parent) else Absent(d)
  {
    hide Children, IsDots;
    assert cs != [] ==> !IsDots(cs[0]);
  }

  /** Paths without "." and ".." are affected only if they lead to the inode. */
  lemma {:induction false} WalkWithout(sb: SuperBlock, big: Img, small: Img, tree: map<nat, Place>, dir: nat, name: Name, ino: nat,
                                       d: nat, parent: nat, cs: seq<Name>)
    requires TreeOk(sb, big, tree) && Without(big, small, tree.Keys, dir, name, ino)
    requires DotFree(cs) && d in tree && d != ino
    ensures Agree(big, small, ino, d, parent, cs)
    decreases |cs|
  {
    hide Children, TreeOk, IsDots;
    if |cs| > 0 && cs[0] in Children(big, d) {
      if d == dir && cs[0] == name {
        NamedType(sb, big, tree, dir, name);
        assert Walk(small, d, parent, cs) == Absent(d);
        if Children(big, dir)[name].fType == FT_DIRECTORY {
          DotsOnly(big, ino, d, cs[1..]);
          assert Walk(big, d, parent, cs) == Walk(big, ino, d, cs[1..]);
        }
      } else {
        OtherEntry(sb, big, small, tree, dir, name, ino, d, cs[0]);
        var e := Children(big, d)[cs[0]];
        if e.fType == FT_DIRECTORY {
          assert DotFree(cs[1..]);
          WalkWithout(sb, big, small, tree, dir, name, ino, e.iNo, d, cs[1..]);
        }
      }
    }
  }

  // --- Removing ---

  lemma GoneIsWithout(sb: SuperBlock, a: Img, b: Img, tree: map<nat, Place>, path: seq<byte>, dir: nat, ino: nat)
    requires Shaped(sb, a) && Shaped(sb, b) && Components(path) != [] && !IsDots(Last(path))
    requires Gone(sb, a, b, tree, path, dir, ino) && Last(path) in Children(a, dir) && Children(a, dir)[Last(path)].iNo == ino
    requires ino in tree ==> forall n :: n in Children(a, ino) ==> IsDots(n)
    ensures Without(a, b, tree.Keys, dir, Last(path), ino)
  {
    hide Children, IsDots, Components, Untouched, DirectoryAt;
  }

  /** After sys_unlink or sys_rmdir, a path without "." and ".." leads where it did, unless it led to the inode removed,
      and then nowhere. */
  lemma PathsAfterRemoval(sb: SuperBlock, a: Img, b: Img, tree: map<nat, Place>, path: seq<byte>, other: seq<byte>)
    requires TreeOk(sb, a, tree) && Shaped(sb, a) && Shaped(sb, b) && DotFree(Components(other))
    requires Leads(a, path).Reached? && Components(path) != [] && !IsDots(Last(path))
    requires Leads(a, path).fType == FT_REGULAR || Removable(a, Leads(a, path))
    requires Gone(sb, a, b, tree, path, Leads(a, path).parent, Leads(a, path).iNo)
    ensures var t, t' := Leads(a, other), Leads(b, other);
            (t'.Reached? <==> t.Reached? && t.iNo != Leads(a, path).iNo) && (t'.Reached? ==> t' == t)
  {
    hide Children, TreeOk, IsDots, Components, Walk, Gone, Without;
    TreeKeys(sb, a, tree);
    Arrived(sb, a, tree, path);
    if Leads(a, path).fType == FT_REGULAR {
      LeadsToFile(sb, a, tree, path);
    } else {
      LeadsToDirectory(sb, a, tree, path);
    }
    GoneIsWithout(sb, a, b, tree, path, Leads(a, path).parent, Leads(a, path).iNo);
    WalkWithout(sb, a, b, tree, Leads(a, path).parent, Last(path), Leads(a, path).iNo, 0, 0, Components(other));
  }

  // --- Making ---

  /** A walk that lacks only its last component has got to the directory that lacks it. */
  lemma {:induction false} LacksLast(img: Img, dirs: set<nat>, d: nat, parent: nat, cs: seq<Name>)
    requires DirTree(img, dirs) && d in dirs && |cs| > 0 && Walk(img, d, parent, cs).Absent?
    requires Walk(img, d, parent, cs[..|cs| - 1]).Reached?
    ensures Walk(img, d, parent, cs[..|cs| - 1]).fType == FT_DIRECTORY
    ensures Walk(img, d, parent, cs[..|cs| - 1]).iNo == Walk(img, d, parent, cs).dir
    decreases |cs|
  {
    hide Children, DirTree;
    if |cs| > 1 {
      assert [cs[0]] + cs[1..] == cs;
      WalkStep(img, dirs, d, parent, cs[0], cs[1..]);
      assert cs[1..][..|cs| - 2] == cs[..|cs| - 1][1..];
      assert [cs[0]] + cs[..|cs| - 1][1..] == cs[..|cs| - 1];
      WalkStep(img, dirs, d, parent, cs[0], cs[..|cs| - 1][1..]);
      if cs[0] in Children(img, d) && Children(img, d)[cs[0]].fType != FT_REGULAR {
        LacksLast(img, dirs, Children(img, d)[cs[0]].iNo, d, cs[1..]);
      }
    }
  }

  /** A new name in the directory where the walk ended: a path without "." and ".." that led nowhere leads to the new inode
      if and only if its last component was the only one missing. */
  lemma FoundWhereAsked(sb: SuperBlock, a: Img, b: Img, tree: map<nat, Place>, tree': map<nat, Place>, cs: seq<Name>, ino: nat)
    requires TreeOk(sb, a, tree) && TreeOk(sb, b, tree') && tree.Keys <= tree'.Keys && |cs| > 0 && DotFree(cs)
    requires Walk(a, 0, 0, cs).Absent? && Walk(a, 0, 0, cs).dir in tree
    requires Without(b, a, tree'.Keys, Walk(a, 0, 0, cs).dir, cs[|cs| - 1], ino)
    requires ino !in a.table && ino != 0
    ensures Walk(b, 0, 0, cs).Reached? && Walk(b, 0, 0, cs).iNo == ino <==> Walk(a, 0, 0, cs[..|cs| - 1]).Reached?
    ensures Walk(b, 0, 0, cs).Reached? ==> Walk(b, 0, 0, cs).iNo == ino && Walk(b, 0, 0, cs).parent == Walk(a, 0, 0, cs).dir
  {
    hide Children, TreeOk, IsDots, Walk, DirTree, KidsOf;
    var dir, name, init := Walk(a, 0, 0, cs).dir, cs[|cs| - 1], cs[..|cs| - 1];
    TreeRoot(sb, a, tree);
    TreeRoot(sb, b, tree');
    WalkWithout(sb, b, a, tree', dir, name, ino, 0, 0, cs);
    WalkWithout(sb, b, a, tree', dir, name, ino, 0, 0, init);
    if Walk(a, 0, 0, init).Reached? {
      LacksLast(a, tree.Keys, 0, 0, cs);
      WalkFurther(b, tree'.Keys, 0, 0, init, name);
      assert cs == init + [name];
    }
    if Walk(b, 0, 0, cs).Reached? {
      LastName(sb, b, tree', cs);
      RemovableName(sb, b, tree', dir, name, ino);
      SameName(sb, b, tree', Walk(b, 0, 0, cs).parent, name, dir, name, ino);
    }
  }

  /** After sys_open has made a file or sys_mkdir a directory, a path without "." and ".." that leads to anything but the new
      inode led there before, and what led anywhere still does; the path asked for leads to the new inode if and only if it
      lacked its last component only. */
  ghost predicate PathsAsAsked(a: Img, b: Img, path: seq<byte>, other: seq<byte>, ino: nat)
    requires Components(path) != []
  {
    var cs := Components(path);
    && (var t, t' := Leads(b, other), Leads(a, other);
        (t'.Reached? <==> t.Reached? && t.iNo != ino) && (t'.Reached? ==> t' == t))
    && (Leads(b, path).Reached? && Leads(b, path).iNo == ino <==> Walk(a, 0, 0, cs[..|cs| - 1]).Reached?)
  }

  lemma PathsAfterMaking(sb: SuperBlock, a: Img, b: Img, tree: map<nat, Place>, tree': map<nat, Place>, path: seq<byte>,
                         other: seq<byte>, ino: nat)
    requires TreeOk(sb, a, tree) && TreeOk(sb, b, tree') && tree.Keys <= tree'.Keys
    requires Components(path) != [] && DotFree(Components(path)) && DotFree(Components(other))
    requires Leads(a, path).Absent? && Leads(a, path).dir in tree && ino !in a.table && ino != 0
    requires Without(b, a, tree'.Keys, Leads(a, path).dir, Last(path), ino)
    ensures PathsAsAsked(a, b, path, other, ino)
  {
    hide Children, TreeOk, IsDots, Components, Walk, Without;
    TreeKeys(sb, b, tree');
    WalkWithout(sb, b, a, tree', Leads(a, path).dir, Last(path), ino, 0, 0, Components(other));
    FoundWhereAsked(sb, a, b, tree, tree', Components(path), ino);
  }

  /** That is what sys_open with O_CREAT does. */
  lemma PathsAfterCreate(sb: SuperBlock, a: Img, b: Img, tree: map<nat, Place>, path: seq<byte>, other: seq<byte>, ino: u32)
    requires TreeOk(sb, a, tree) && TreeOk(sb, b, tree) && Shaped(sb, a) && Shaped(sb, b) && Pathname(path) && Vacant(a, path)
    requires FiledAt(sb, a, b, tree, path, ino) && DotFree(Components(path)) && DotFree(Components(other))
    ensures PathsAsAsked(a, b, path, other, ino)
  {
    hide Children, TreeOk, IsDots, Components, Walk, Untouched, Filed;
    TreeKeys(sb, a, tree);
    FiledIsWithout(sb, a, b, tree, path, Leads(a, path).dir, ino);
    PathsAfterMaking(sb, a, b, tree, tree, path, other, ino);
  }

  lemma AddedIsWithout(a: Img, b: Img, dirs: set<nat>, dir: nat, name: Name, e: DirEntry, ino: nat)
    requires dir in dirs && dir != ino && name !in Children(a, dir) && !IsDots(name) && e.iNo as nat == ino
    requires Children(b, dir) == Children(a, dir)[name := e]
    requires forall d :: d in dirs && d != dir && d != ino ==> Children(b, d) == Children(a, d)
    requires ino in dirs ==> forall n :: n in Children(b, ino) ==> IsDots(n)
    ensures Without(b, a, dirs, dir, name, ino)
  {
    hide Children, IsDots;
  }

  lemma FiledIsWithout(sb: SuperBlock, a: Img, b: Img, tree: map<nat, Place>, path: seq<byte>, dir: nat, ino: u32)
    requires Shaped(sb, a) && Shaped(sb, b) && TreeOk(sb, a, tree) && Components(path) != [] && |Last(path)| < NAME_LEN
    requires dir in tree && Last(path) !in Children(a, dir) && !IsDots(Last(path)) && Filed(sb, a, b, tree, dir, ino, Last(path))
    ensures Without(b, a, tree.Keys, dir, Last(path), ino) && (ino as nat) !in a.table
  {
    hide Children, IsDots, Components, Untouched, TreeOk, Without, EmptyNode;
    TreeKeys(sb, a, tree);
    var name := Last(path);
    AddedIsWithout(a, b, tree.Keys, dir, name, CreateDirEntry(name, ino, FT_REGULAR), ino);
  }

  /** And that is what sys_mkdir does. */
  lemma PathsAfterMkdir(sb: SuperBlock, a: Img, b: Img, tree: map<nat, Place>, path: seq<byte>, other: seq<byte>, ino: u32)
    requires TreeOk(sb, a, tree) && Shaped(sb, a) && Shaped(sb, b) && Pathname(path) && Vacant(a, path)
    requires |Last(path)| < NAME_LEN && Leads(a, path).dir in tree && Leads(a, path).dir < 0x1_0000_0000
    requires TreeOk(sb, b, Planted(tree, Leads(a, path).dir, ino))
    requires Founded(sb, a, b, tree, Leads(a, path).dir, ino, Last(path))
    requires DotFree(Components(path)) && DotFree(Components(other))
    ensures PathsAsAsked(a, b, path, other, ino)
  {
    hide Children, TreeOk, IsDots, Components, Walk, Untouched, Founded;
    TreeKeys(sb, a, tree);
    FoundedIsWithout(sb, a, b, tree, path, Leads(a, path).dir, ino);
    PathsAfterMaking(sb, a, b, tree, Planted(tree, Leads(a, path).dir, ino), path, other, ino);
  }

  lemma FoundedIsWithout(sb: SuperBlock, a: Img, b: Img, tree: map<nat, Place>, path: seq<byte>, dir: u32, ino: u32)
    requires Shaped(sb, a) && Shaped(sb, b) && TreeOk(sb, a, tree) && Components(path) != [] && |Last(path)| < NAME_LEN
    requires (dir as nat) in tree && Last(path) !in Children(a, dir) && !IsDots(Last(path))
    requires Founded(sb, a, b, tree, dir, ino, Last(path))
    ensures Without(b, a, Planted(tree, dir, ino).Keys, dir, Last(path), ino) && (ino as nat) !in a.table
  {
    hide Children, Components, Untouched, TreeOk, Without, DotEntry, DotDotEntry;
    TreeKeys(sb, a, tree);
    var name := Last(path);
    AddedIsWithout(a, b, Planted(tree, dir, ino).Keys, dir, name, CreateDirEntry(name, ino, FT_DIRECTORY), ino);
  }
}
