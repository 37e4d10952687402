/** fs/dir.h and the data a directory consists of: 21 entries of 24 bytes in each of up to 140 blocks. */
module DirEntries {
  import opened Words
  import opened Layout
  import opened InodeTable
  import opened BlockMap

  const NAME_LEN: nat := 16
  const PER_SECTOR: nat := 21
  const SLOTS: nat := 2940

  /** enum file_types */
  const FT_UNKNOWN: u32 := 0
  const FT_REGULAR: u32 := 1
  const FT_DIRECTORY: u32 := 2

  /** `struct dir_entry` */
  datatype DirEntry = DirEntry(filename: seq<byte>, iNo: u32, fType: u32) {
    predicate Ok() {
      |filename| == NAME_LEN
    }

    predicate Live() {
      fType != FT_UNKNOWN
    }

    /** The file name as a C string. */
    function Name(): (s: seq<byte>) {
      CString(filename)
    }
  }

  /** The characters before the first NUL. */
  function CString(bs: seq<byte>): (s: seq<byte>)
    ensures |s| <= |bs|
  {
    if |bs| == 0 || bs[0] == 0 then [] else [bs[0]] + CString(bs[1..])
  }

  /** What memset(entry, 0, dir_entry_size) leaves. */
  function ZeroEntry(): DirEntry {
    DirEntry(seq(NAME_LEN, _ => 0), 0, FT_UNKNOWN)
  }

  /** Entry k of a sector read as an array of entries. */
  function EntryAt(s: Sector, k: nat): (e: DirEntry)
    requires k < PER_SECTOR
    ensures e.Ok()
  {
    var at := k * DIR_ENTRY_SIZE;
    DirEntry(s[at..at + NAME_LEN], WordAt(s, at + NAME_LEN), WordAt(s, at + NAME_LEN + 4))
  }

  function EntryBytes(e: DirEntry): (bs: seq<byte>)
    requires e.Ok()
    ensures |bs| == DIR_ENTRY_SIZE
  {
    e.filename + Pack([e.iNo, e.fType])
  }

  /** memcpy of one entry into a sector buffer */
  function PutEntry(s: Sector, k: nat, e: DirEntry): Sector
    requires k < PER_SECTOR && e.Ok()
  {
    Splice(s, k * DIR_ENTRY_SIZE, EntryBytes(e))
  }

  lemma EntryAfterPut(s: Sector, k: nat, e: DirEntry, j: nat)
    requires k < PER_SECTOR && e.Ok() && j < PER_SECTOR
    ensures EntryAt(PutEntry(s, k, e), j) == if j == k then e else EntryAt(s, j)
  {
    var at, t := j * DIR_ENTRY_SIZE, PutEntry(s, k, e);
    forall o | 0 <= o < DIR_ENTRY_SIZE
      ensures t[at + o] == if j == k then EntryBytes(e)[o] else s[at + o]
    {
      if j < k {
        assert at + o < k * DIR_ENTRY_SIZE;
      } else if j > k {
        assert at + o >= k * DIR_ENTRY_SIZE + DIR_ENTRY_SIZE;
      }
    }
    if j == k {
      EntryOfBytes(t, j, e);
    } else {
      assert t[at..at + NAME_LEN] == s[at..at + NAME_LEN];
      assert t[at + 16] == s[at + 16] && t[at + 17] == s[at + 17] && t[at + 18] == s[at + 18] && t[at + 19] == s[at + 19];
      assert t[at + 20] == s[at + 20] && t[at + 21] == s[at + 21] && t[at + 22] == s[at + 22] && t[at + 23] == s[at + 23];
    }
  }

  lemma EntryOfBytes(t: Sector, j: nat, e: DirEntry)
    requires j < PER_SECTOR && e.Ok()
    requires forall o :: 0 <= o < DIR_ENTRY_SIZE ==> t[j * DIR_ENTRY_SIZE + o] == EntryBytes(e)[o]
    ensures EntryAt(t, j) == e
  {
    var at := j * DIR_ENTRY_SIZE;
    assert t[at..at + NAME_LEN] == e.filename by {
      forall o | 0 <= o < NAME_LEN
        ensures t[at..at + NAME_LEN][o] == e.filename[o]
      {
        assert t[at + o] == EntryBytes(e)[o];
      }
    }
    var ws := [e.iNo, e.fType];
    forall o | 0 <= o < 8
      ensures t[at + 16 + o] == Pack(ws)[o]
    {
      assert t[at + (16 + o)] == EntryBytes(e)[16 + o];
    }
    assert t[at + 16] == Pack(ws)[0] && t[at + 17] == Pack(ws)[1] && t[at + 18] == Pack(ws)[2] && t[at + 19] == Pack(ws)[3];
    assert t[at + 20] == Pack(ws)[4] && t[at + 21] == Pack(ws)[5] && t[at + 22] == Pack(ws)[6] && t[at + 23] == Pack(ws)[7];
    WordAtPack(ws, 0);
    WordAtPack(ws, 1);
  }

  /** Where the fields of entry k are in a sector: `struct dir_entry`, 24 bytes long. */
  lemma EntryFields(s: Sector, k: nat, e: DirEntry)
    requires k < PER_SECTOR && e.Ok()
    ensures var t := PutEntry(s, k, e);
            && t[24 * k..24 * k + 16] == e.filename && WordAt(t, 24 * k + 16) == e.iNo && WordAt(t, 24 * k + 20) == e.fType
            && forall o :: 0 <= o < SECTOR_SIZE && !(24 * k <= o < 24 * k + 24) ==> t[o] == s[o]
  {
    EntryAfterPut(s, k, e, k);
  }

  /** All entries of a directory, block after block; a block without a sector counts as one of free entries. */
  function Slots(disk: seq<Sector>, n: Node): (r: seq<DirEntry>)
    requires n.Ok()
    ensures |r| == SLOTS
  {
    seq(SLOTS, i requires 0 <= i < SLOTS => EntryAt(View(disk, n, i / PER_SECTOR), i % PER_SECTOR))
  }

  /** Entry k of block b in that numbering. */
  lemma SlotOf(disk: seq<Sector>, n: Node, b: nat, k: nat)
    requires n.Ok() && b < BLOCKS && k < PER_SECTOR
    ensures b * PER_SECTOR + k < SLOTS
    ensures Slots(disk, n)[b * PER_SECTOR + k] == EntryAt(View(disk, n, b), k)
  {
    assert (b * PER_SECTOR + k) / PER_SECTOR == b && (b * PER_SECTOR + k) % PER_SECTOR == k;
  }

  lemma ZeroSlot(k: nat)
    requires k < PER_SECTOR
    ensures EntryAt(Zeros(), k) == ZeroEntry()
  {
    ZeroBytes(Zeros(), k);
  }

  lemma ZeroBytes(z: Sector, k: nat)
    requires k < PER_SECTOR && forall o :: 0 <= o < SECTOR_SIZE ==> z[o] == 0
    ensures EntryAt(z, k) == ZeroEntry()
  {
    assert z[k * DIR_ENTRY_SIZE..k * DIR_ENTRY_SIZE + NAME_LEN] == seq(NAME_LEN, _ => 0);
  }

  /** Replacing one entry in one block replaces one slot. */
  lemma SlotsAfterPut(disk: seq<Sector>, n: Node, disk': seq<Sector>, n': Node, b: nat, k: nat, e: DirEntry)
    requires n.Ok() && n'.Ok() && b < BLOCKS && k < PER_SECTOR && e.Ok()
    requires forall c | 0 <= c < BLOCKS ::
               View(disk', n', c) == if c == b then PutEntry(View(disk, n, b), k, e) else View(disk, n, c)
    ensures b * PER_SECTOR + k < SLOTS
    ensures Slots(disk', n') == Slots(disk, n)[b * PER_SECTOR + k := e]
  {
    hide View, PutEntry, EntryAt;
    var s, s' := Slots(disk, n), Slots(disk', n');
    forall i | 0 <= i < SLOTS
      ensures s'[i] == s[b * PER_SECTOR + k := e][i]
    {
      SlotOf(disk, n, i / PER_SECTOR, i % PER_SECTOR);
      SlotOf(disk', n', i / PER_SECTOR, i % PER_SECTOR);
      if i / PER_SECTOR == b {
        EntryAfterPut(View(disk, n, b), k, e, i % PER_SECTOR);
      }
    }
  }

  lemma SlotsSame(disk: seq<Sector>, n: Node, disk': seq<Sector>, n': Node)
    requires n.Ok() && n'.Ok()
    requires forall b :: 0 <= b < BLOCKS ==> View(disk', n', b) == View(disk, n, b)
    ensures Slots(disk', n') == Slots(disk, n)
  {
  }

  // --- The finite map that a directory is ---

  /** The live entries in slot order. */
  function LiveEntries(s: seq<DirEntry>): seq<DirEntry> {
    if |s| == 0 then []
    else LiveEntries(s[..|s| - 1]) + if s[|s| - 1].Live() then [s[|s| - 1]] else []
  }

  lemma {:induction false} LiveEntriesUpdate(s: seq<DirEntry>, i: nat, e: DirEntry)
    requires i < |s|
    ensures |LiveEntries(s[i := e])| ==
            |LiveEntries(s)| - (if s[i].Live() then 1 else 0) + (if e.Live() then 1 else 0)
  {
    var n := |s| - 1;
    if i == n {
      assert s[i := e][..n] == s[..n];
    } else {
      assert s[i := e][..n] == s[..n][i := e];
      LiveEntriesUpdate(s[..n], i, e);
    }
  }

  lemma {:induction false} LiveEntriesFull(s: seq<DirEntry>)
    ensures |LiveEntries(s)| <= |s|
    ensures |LiveEntries(s)| == |s| <==> forall i :: 0 <= i < |s| ==> s[i].Live()
  {
    if |s| > 0 {
      var n := |s| - 1;
      LiveEntriesFull(s[..n]);
      if forall i :: 0 <= i < n ==> s[..n][i].Live() {
        assert forall i :: 0 <= i < n ==> s[i].Live();
      } else {
        var i :| 0 <= i < n && !s[..n][i].Live();
        assert !s[i].Live();
      }
    }
  }

  /** The names in use. */
  ghost function Names(s: seq<DirEntry>): set<seq<byte>> {
    set i | 0 <= i < |s| && s[i].Live() :: s[i].Name()
  }

  /** The slot that holds a name. */
  ghost function Find(s: seq<DirEntry>, name: seq<byte>): (i: nat)
    requires name in Names(s)
    ensures i < |s| && s[i].Live() && s[i].Name() == name
  {
    var i :| 0 <= i < |s| && s[i].Live() && s[i].Name() == name;
    i
  }

  /** No two live entries have the same name, none has an empty one, and every name is terminated in its 16 bytes. */
  ghost predicate NamesOk(s: seq<DirEntry>) {
    && (forall i :: 0 <= i < |s| && s[i].Live() ==> 0 < |s[i].Name()| < NAME_LEN)
    && (forall i, j :: 0 <= i < j < |s| && s[i].Live() && s[j].Live() ==> s[i].Name() != s[j].Name())
  }

  /** What a directory maps names to. */
  ghost function Bindings(s: seq<DirEntry>): map<seq<byte>, DirEntry> {
    map name | name in Names(s) :: s[Find(s, name)]
  }

  lemma BindingAt(s: seq<DirEntry>, i: nat)
    requires NamesOk(s) && i < |s| && s[i].Live()
    ensures s[i].Name() in Bindings(s) && Bindings(s)[s[i].Name()] == s[i]
  {
    var j := Find(s, s[i].Name());
    assert i == j;
  }

  lemma NamesAfterAdd(s: seq<DirEntry>, i: nat, e: DirEntry)
    requires i < |s| && !s[i].Live() && e.Live()
    ensures Names(s[i := e]) == Names(s) + {e.Name()}
  {
    hide CString;
    var t := s[i := e];
    forall j | 0 <= j < |s| && s[j].Live()
      ensures s[j].Name() in Names(t)
    {
      assert t[j] == s[j];
    }
    assert t[i].Name() in Names(t);
  }

  lemma NamesOkAfterAdd(s: seq<DirEntry>, i: nat, e: DirEntry)
    requires NamesOk(s) && i < |s|
    requires 0 < |e.Name()| < NAME_LEN && e.Name() !in Names(s)
    ensures NamesOk(s[i := e])
  {
    hide CString;
    forall j | 0 <= j < |s| && s[j].Live()
      ensures s[j].Name() in Names(s)
    {
    }
  }

  /** Filling a free slot keeps the names in order exactly if the new one is a proper name that no live entry has. */
  lemma NamesOkIff(s: seq<DirEntry>, i: nat, e: DirEntry)
    requires NamesOk(s) && i < |s| && !s[i].Live() && e.Live()
    ensures NamesOk(s[i := e]) <==> 0 < |e.Name()| < NAME_LEN && e.Name() !in Names(s)
  {
    hide CString;
    var t := s[i := e];
    if 0 < |e.Name()| < NAME_LEN && e.Name() !in Names(s) {
      NamesOkAfterAdd(s, i, e);
    } else if NamesOk(t) {
      assert t[i] == e;
      forall k | 0 <= k < |s| && s[k].Live()
        ensures s[k].Name() != e.Name()
      {
        assert t[k] == s[k];
      }
    }
  }

  lemma BindingKept(s: seq<DirEntry>, i: nat, e: DirEntry, name: seq<byte>)
    requires i < |s| && !s[i].Live() && NamesOk(s[i := e]) && name in Names(s)
    ensures name in Names(s[i := e]) && Bindings(s[i := e])[name] == Bindings(s)[name]
  {
    hide CString, NamesOk;
    var j := Find(s, name);
    assert s[i := e][j] == s[j];
    BindingAt(s[i := e], j);
  }

  /** Filling a free slot adds one binding. */
  lemma BindingsAfterAdd(s: seq<DirEntry>, i: nat, e: DirEntry)
    requires NamesOk(s) && i < |s| && !s[i].Live()
    requires e.Live() && 0 < |e.Name()| < NAME_LEN && e.Name() !in Names(s)
    ensures NamesOk(s[i := e])
    ensures Bindings(s[i := e]) == Bindings(s)[e.Name() := e]
  {
    hide CString, NamesOk, Names;
    NamesOkAfterAdd(s, i, e);
    NamesAfterAdd(s, i, e);
    BindingAt(s[i := e], i);
    forall name | name in Names(s)
      ensures Bindings(s[i := e])[name] == Bindings(s)[name]
    {
      BindingKept(s, i, e, name);
    }
  }

  lemma NamesAfterDelete(s: seq<DirEntry>, i: nat)
    requires NamesOk(s) && i < |s| && s[i].Live()
    ensures Names(s[i := ZeroEntry()]) == Names(s) - {s[i].Name()}
  {
    hide CString;
    var t := s[i := ZeroEntry()];
    forall j | 0 <= j < |s| && s[j].Live() && j != i
      ensures s[j].Name() in Names(t) && s[j].Name() != s[i].Name()
    {
      assert t[j] == s[j];
    }
  }

  /** Clearing a live slot removes one binding. */
  lemma BindingsAfterDelete(s: seq<DirEntry>, i: nat)
    requires NamesOk(s) && i < |s| && s[i].Live()
    ensures NamesOk(s[i := ZeroEntry()])
    ensures Bindings(s[i := ZeroEntry()]) == Bindings(s) - {s[i].Name()}
  {
    hide CString;
    var t := s[i := ZeroEntry()];
    assert NamesOk(t);
    NamesAfterDelete(s, i);
    forall name | name in Names(t)
      ensures Bindings(t)[name] == s[Find(s, name)]
    {
      var j := Find(s, name);
      assert t[j] == s[j];
      BindingAt(t, j);
    }
  }
}
