/** search_file of fs/fs.c: walking a path through the directories on the disk. */
module Search {
  import opened Words
  import opened Bitmaps
  import opened BlockMap
  import opened Volumes
  import opened DirEntries
  import opened Directories
  import opened Paths

  /** What directory d maps names to. */
  ghost function Children(img: Img, d: nat): map<Name, DirEntry> {
    if d in img.table && img.table[d].Ok() then Bindings(Slots(img.disk, img.table[d])) else map[]
  }

  /** The inodes in dirs are directories in order, the root is one of them, and every entry of theirs is a regular file or
      names another of them. */
  ghost predicate DirTree(img: Img, dirs: set<nat>) {
    && 0 in dirs
    && (forall d :: d in dirs ==> d in img.table && img.table[d].Ok() && DirOk(img.disk, img.table[d]))
    && forall d, name :: d in dirs && name in Children(img, d) ==>
         var e := Children(img, d)[name];
         e.fType == FT_REGULAR || (e.fType == FT_DIRECTORY && e.iNo in dirs)
  }

  /** Where a walk ends: at an inode of some type that was found in directory `parent`; in a directory that lacks the next
      component; or in a directory where the next component is a regular file although more components follow. */
  datatype Target = Reached(iNo: nat, fType: u32, parent: nat) | Absent(dir: nat) | Blocked(dir: nat)

  /** The walk along the components cs from directory `dir`, which was found in directory `parent`. */
  ghost function Walk(img: Img, dir: nat, parent: nat, cs: seq<Name>): Target
    decreases |cs|
  {
    if |cs| == 0 then Reached(dir, FT_DIRECTORY, parent)
    else if cs[0] !in Children(img, dir) then Absent(dir)
    else
      var e := Children(img, dir)[cs[0]];
      if e.fType == FT_REGULAR then
        if |cs| == 1 then Reached(e.iNo, FT_REGULAR, dir) else Blocked(dir)
      else Walk(img, e.iNo, dir, cs[1..])
  }

  /** `struct path_search_record` */
  class SearchRecord {
    var searchPath: seq<byte>
    var parentDir: Inode
    var fileType: u32
    var earlyExit: bool

    constructor (root: Inode)
      ensures searchPath == [] && parentDir == root && fileType == FT_DIRECTORY && !earlyExit
    {
      searchPath, parentDir, fileType, earlyExit := [], root, FT_DIRECTORY, false;
    }
  }

  /** search_file's result and record say where the walk ended. */
  ghost predicate Reports(t: Target, r: int, record: SearchRecord)
    reads record, record.parentDir
  {
    match t
    case Reached(i, fType, parent) =>
      r == i && record.fileType == fType && record.parentDir.iNo == parent && !record.earlyExit
    case Absent(d) => r == -1 && record.parentDir.iNo == d && !record.earlyExit
    case Blocked(d) => r == -1 && record.parentDir.iNo == d && record.earlyExit
  }

  lemma ReportsReached(t: Target, r: int, record: SearchRecord)
    requires t.Reached? && r == t.iNo && record.fileType == t.fType && record.parentDir.iNo == t.parent && !record.earlyExit
    ensures Reports(t, r, record)
  {
  }

  lemma JoinedNext(done: seq<Name>, name: Name)
    ensures Joined(done + [name]) == Joined(done) + [SLASH] + name
  {
    assert (done + [name])[..|done|] == done;
  }

  /** An open directory of the tree. */
  ghost predicate OpenIn(vol: Volume, dir: Inode, dirs: set<nat>)
    reads vol, vol.blockBitmap.bits, vol.inodeBitmap.bits, vol.ledger, dir
  {
    dir.iNo in dirs && DirTree(vol.State(), dirs) && Unsynced(vol, dir)
  }

  lemma OpenedIn(vol: Volume, dir: Inode, dirs: set<nat>)
    requires vol.Valid() && DirTree(vol.State(), dirs) && dir.iNo in dirs
    requires dir.iNo in vol.table && dir.Shows(vol.table[dir.iNo])
    ensures OpenIn(vol, dir, dirs)
  {
    hide DirTree, Owned;
  }

  /** dir_open */
  method OpenDir(vol: Volume, inodeNo: nat, ghost dirs: set<nat>) returns (dir: Inode)
    requires vol.Valid() && DirTree(vol.State(), dirs) && inodeNo in dirs
    ensures fresh(dir) && dir.iNo == inodeNo && OpenIn(vol, dir, dirs)
  {
    hide Owned, BitsOf, OnDisk, DirOk, Slots, TableLoaded;
    dir := vol.InodeOpen(inodeNo);
    OpenedIn(vol, dir, dirs);
  }

  lemma TreeDir(img: Img, dirs: set<nat>, d: nat)
    requires DirTree(img, dirs) && d in dirs
    ensures d in img.table && img.table[d].Ok() && DirOk(img.disk, img.table[d])
    ensures Children(img, d) == Bindings(Slots(img.disk, img.table[d]))
  {
  }

  /** search_dir_entry in a directory of the tree */
  method LookUp(vol: Volume, dir: Inode, name: Name, ghost dirs: set<nat>) returns (found: bool, e: DirEntry)
    requires OpenIn(vol, dir, dirs) && 0 < |name| < NAME_LEN
    ensures found <==> name in Children(vol.State(), dir.iNo)
    ensures found ==> e == Children(vol.State(), dir.iNo)[name]
  {
    hide Children, DirOk, Slots, Bindings, DirTree;
    TreeDir(vol.State(), dirs, dir.iNo);
    found, e := SearchDirEntry(vol, dir, name);
  }

  /** One component found missing, a file, or a directory. */
  lemma WalkStep(img: Img, dirs: set<nat>, dir: nat, parent: nat, name: Name, rest: seq<Name>)
    requires DirTree(img, dirs) && dir in dirs
    ensures var t := Walk(img, dir, parent, [name] + rest);
            if name !in Children(img, dir) then t == Absent(dir)
            else
              var e := Children(img, dir)[name];
              if e.fType == FT_REGULAR then
                t == if rest == [] then Reached(e.iNo, FT_REGULAR, dir) else Blocked(dir)
              else
                e.fType == FT_DIRECTORY && e.iNo in dirs && t == Walk(img, e.iNo, dir, rest)
  {
    hide DirOk;
    assert ([name] + rest)[1..] == rest;
  }

  /** search_file */
  method SearchFile(vol: Volume, pathname: seq<byte>, root: Inode, record: SearchRecord, ghost dirs: set<nat>) returns (r: int)
    requires vol.Valid() && DirTree(vol.State(), dirs)
    requires |pathname| > 0 && pathname[0] == SLASH && forall k :: 0 <= k < |pathname| ==> pathname[k] != 0
    requires Fits(Components(pathname))
    requires root.iNo == 0 && OpenIn(vol, root, dirs)
    modifies record
    ensures Reports(Walk(vol.State(), 0, 0, Components(pathname)), r, record)
    ensures OpenIn(vol, record.parentDir, dirs) && (record.parentDir == root || fresh(record.parentDir))
  {
    hide Components, Joined, Walk, DirTree, OpenIn, Children;
    hide Volume.Valid;
    var subPath := 0;
    SkipSlash(pathname, subPath);
    subPath := subPath + 1;
    while subPath < |pathname| && pathname[subPath] == SLASH
      invariant 0 < subPath <= |pathname|
      invariant Components(pathname[0..]) == Components(pathname[subPath..])
    {
      SkipSlash(pathname, subPath);
      subPath := subPath + 1;
    }
    assert pathname[0..] == pathname;
    record.parentDir, record.fileType, record.searchPath, record.earlyExit := root, FT_DIRECTORY, [], false;
    if subPath == |pathname| {
      EmptyPath(vol.State());
      assert pathname[subPath..] == [];
      return 0;
    }
    RootIn(vol.State(), dirs);
    r := WalkPath(vol, pathname, subPath, record, dirs);
  }

  lemma RootIn(img: Img, dirs: set<nat>)
    requires DirTree(img, dirs)
    ensures 0 in dirs
  {
  }

  lemma EmptyPath(img: Img)
    ensures Components([]) == []
    ensures Walk(img, 0, 0, []) == Reached(0, FT_DIRECTORY, 0)
  {
  }

  lemma WalkEnd(img: Img, dir: nat, parent: nat)
    ensures Walk(img, dir, parent, []) == Reached(dir, FT_DIRECTORY, parent)
  {
  }

  /** The path recorded so far has as many components as have been looked up. */
  lemma DepthOfPrefix(pathname: seq<byte>, cs: seq<Name>)
    requires forall k :: 0 <= k < |pathname| ==> pathname[k] != 0
    requires cs <= Components(pathname)
    ensures Components(Joined(cs)) == cs
  {
    ComponentsPlain(pathname);
    assert forall k :: 0 <= k < |cs| ==> cs[k] == Components(pathname)[k];
    ComponentsOfJoined(cs);
  }

  lemma NextComponent(done: seq<Name>, name: Name, rest: seq<Name>, cs: seq<Name>)
    requires cs == done + ([name] + rest) && Fits(cs)
    ensures cs == (done + [name]) + rest && |name| < NAME_LEN
    ensures Joined(done + [name]) == Joined(done) + [SLASH] + name && |Joined(done + [name])| < MAX_PATH_LEN
  {
    hide Joined;
    assert name == cs[|done|] && done + [name] == cs[..|done| + 1];
    JoinedNext(done, name);
    JoinedPrefix(cs, |done| + 1);
  }

  const MAX_PATH_LEN: nat := 512

  /** The components fit into entries and, joined, into the record. */
  predicate Fits(cs: seq<Name>) {
    Fit(cs, NAME_LEN) && |Joined(cs)| < MAX_PATH_LEN
  }

  lemma FitsHas(cs: seq<Name>)
    requires Fits(cs)
    ensures Fit(cs, NAME_LEN)
  {
  }

  lemma {:induction false} JoinedPrefix(cs: seq<Name>, k: nat)
    requires k <= |cs|
    ensures |Joined(cs[..k])| <= |Joined(cs)|
  {
    if k < |cs| {
      JoinedPrefix(cs[..|cs| - 1], k);
      assert cs[..|cs| - 1][..k] == cs[..k];
    } else {
      assert cs[..k] == cs;
    }
  }

  /** Comparing the number of components looked up with the number there are. */
  method IsWholePath(pathname: seq<byte>, searchPath: seq<byte>, ghost looked: seq<Name>, ghost rest: seq<Name>) returns (r: bool)
    requires Fit(Components(pathname), NAME_LEN)
    requires forall k :: 0 <= k < |pathname| ==> pathname[k] != 0
    requires Components(pathname) == looked + rest && searchPath == Joined(looked)
    ensures r <==> rest == []
  {
    hide Components, Joined;
    DepthOfPrefix(pathname, looked);
    var d0 := PathDepthCnt(searchPath);
    var d1 := PathDepthCnt(pathname);
    r := d0 == d1;
  }

  lemma Regroup(done: seq<Name>, name: Name, rest: seq<Name>)
    ensures done + ([name] + rest) == (done + [name]) + rest
  {
  }

  /** One round of search_file's loop, up to the opening of the next directory: the component is recorded and looked up. It is
      the last one if it is missing or a regular file. */
  method Visit(vol: Volume, pathname: seq<byte>, record: SearchRecord, name: Name, ghost parent: nat, ghost done: seq<Name>,
               ghost rest: seq<Name>, ghost dirs: set<nat>) returns (ended: bool, r: int, dirE: DirEntry)
    requires vol.Valid() && DirTree(vol.State(), dirs) && OpenIn(vol, record.parentDir, dirs) && record.parentDir.iNo in dirs
    requires forall k :: 0 <= k < |pathname| ==> pathname[k] != 0
    requires Fits(Components(pathname)) && Components(pathname) == done + ([name] + rest) && name != []
    requires record.searchPath == Joined(done) && record.fileType == FT_DIRECTORY && !record.earlyExit
    modifies record`searchPath, record`fileType, record`earlyExit
    ensures var t := Walk(vol.State(), record.parentDir.iNo, parent, [name] + rest);
            if ended then Reports(t, r, record)
            else
              && (dirE.iNo as nat) in dirs && t == Walk(vol.State(), dirE.iNo, record.parentDir.iNo, rest)
              && record.searchPath == Joined(done + [name]) && record.fileType == FT_DIRECTORY && !record.earlyExit
  {
    hide Components, Joined, Walk, DirTree, OpenIn, Children;
    hide Volume.Valid;
    NextComponent(done, name, rest, Components(pathname));
    record.searchPath := record.searchPath + [SLASH] + name;
    assert |record.searchPath| < MAX_PATH_LEN;
    WalkStep(vol.State(), dirs, record.parentDir.iNo, parent, name, rest);
    var found;
    found, dirE := LookUp(vol, record.parentDir, name, dirs);
    if !found {
      return true, -1, dirE;
    }
    if dirE.fType == FT_REGULAR {
      record.fileType := FT_REGULAR;
      var last := IsWholePath(pathname, record.searchPath, done + [name], rest);
      if last {
        return true, dirE.iNo, dirE;
      }
      record.earlyExit := true;
      return true, -1, dirE;
    }
    return false, 0, dirE;
  }

  /** The loop of search_file, from a position of the path after its leading slashes. */
  method WalkPath(vol: Volume, pathname: seq<byte>, start: nat, record: SearchRecord, ghost dirs: set<nat>) returns (r: int)
    requires vol.Valid() && DirTree(vol.State(), dirs) && 0 in dirs
    requires start <= |pathname| && forall k :: 0 <= k < |pathname| ==> pathname[k] != 0
    requires Components(pathname[start..]) == Components(pathname)
    requires Fits(Components(pathname))
    requires record.searchPath == [] && record.fileType == FT_DIRECTORY && !record.earlyExit
    requires record.parentDir.iNo == 0 && OpenIn(vol, record.parentDir, dirs)
    modifies record
    ensures Reports(Walk(vol.State(), 0, 0, Components(pathname)), r, record)
    ensures OpenIn(vol, record.parentDir, dirs) && (record.parentDir == old(record.parentDir) || fresh(record.parentDir))
  {
    hide Components, Joined, Walk, DirTree, OpenIn, Children, Fit, Fits, Reports;
    hide Volume.Valid;
    ghost var img, cs := vol.State(), Components(pathname);
    ghost var done: seq<Name> := [];
    EmptyStack();
    FitsHas(cs);
    var parentDir := record.parentDir;
    var parentInodeNo := 0;
    var subPath, name := PathParse(pathname, start, NAME_LEN);
    ghost var todo := cs;
    assert [] + cs == cs;
    while name != []
      invariant subPath <= |pathname| && |name| < NAME_LEN && Fit(Components(pathname[subPath..]), NAME_LEN)
      invariant vol.Valid() && vol.State() == img
      invariant cs == done + todo
      invariant todo == if name == [] then [] else [name] + Components(pathname[subPath..])
      invariant Walk(img, 0, 0, cs) == Walk(img, parentDir.iNo, parentInodeNo, todo)
      invariant record.searchPath == Joined(done) && record.fileType == FT_DIRECTORY && !record.earlyExit
      invariant parentDir.iNo in dirs && OpenIn(vol, parentDir, dirs)
      invariant parentInodeNo in dirs && record.parentDir == parentDir
      invariant parentDir == old(record.parentDir) || fresh(parentDir)
      decreases |pathname| - subPath, if name == [] then 0 else 1
    {
      ghost var rest := Components(pathname[subPath..]);
      ghost var more := done + [name];
      var ended, dirE;
      ended, r, dirE := Visit(vol, pathname, record, name, parentInodeNo, done, rest, dirs);
      if ended {
        return;
      }
      Regroup(done, name, rest);
      assert cs == more + rest;
      parentInodeNo := parentDir.iNo;
      parentDir := OpenDir(vol, dirE.iNo, dirs);
      record.parentDir := parentDir;
      done, todo := more, rest;
      subPath, name := PathParse(pathname, subPath, NAME_LEN);
    }
    WalkEnd(img, parentDir.iNo, parentInodeNo);
    record.parentDir := OpenDir(vol, parentInodeNo, dirs);
    r := parentDir.iNo;
    ReportsReached(Reached(parentDir.iNo, FT_DIRECTORY, parentInodeNo), r, record);
  }
}
