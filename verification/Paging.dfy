/** Two-level page tables with 4 KB pages (Intel SDM Vol. 3A, section 4.3) and the part of kernel/memory.c that reaches them
    through the directory's last entry, which points to the directory itself. */
module Paging {
  import opened Words

  const ENTRIES: nat := 1024
  const PAGE_SIZE: nat := 4096
  const SELF: nat := 1023
  /** PG_US_U | PG_RW_W | PG_P_1 */
  const FLAGS: nat := 7

  /** The words of a page frame. */
  type Frame = s: seq<u32> | |s| == 1024 witness seq(1024, _ => 0)

  /** What memset(page, 0, PAGE_SIZE) leaves behind. */
  function ZeroFrame(): (s: Frame)
    ensures forall k :: 0 <= k < ENTRIES ==> s[k] == 0
  {
    seq(1024, _ => 0)
  }

  predicate Present(e: u32) {
    e % 2 == 1
  }

  /** The frame an entry names. */
  function FrameOf(e: u32): nat {
    e / PAGE_SIZE
  }

  /** `phyaddr | PG_US_U | PG_RW_W | PG_P_1`, for the address of frame f */
  function Entry(f: nat): u32
    requires f < 0x10_0000
  {
    f * PAGE_SIZE + FLAGS
  }

  lemma EntryFields(f: nat)
    requires f < 0x10_0000
    ensures Present(Entry(f)) && FrameOf(Entry(f)) == f
  {
  }

  /** The processor lets user code read and write through the entry: the bits P, R/W and U/S are set. */
  predicate UserWritable(e: u32) {
    e % 2 == 1 && e / 2 % 2 == 1 && e / 4 % 2 == 1
  }

  lemma EntryWritable(f: nat)
    requires f < 0x10_0000
    ensures UserWritable(Entry(f))
  {
    assert Entry(f) == 8 * (512 * f) + 7;
    assert Entry(f) / 2 == 2 * (2 * (512 * f) + 1) + 1 && Entry(f) / 4 == 2 * (512 * f) + 1;
  }

  function PdeIdx(vaddr: u32): (i: nat)
    ensures i < ENTRIES
  {
    vaddr / 0x40_0000
  }

  function PteIdx(vaddr: u32): (i: nat)
    ensures i < ENTRIES
  {
    vaddr / PAGE_SIZE % ENTRIES
  }

  /** The virtual page that directory entry i and table entry j stand for. */
  function Page(i: nat, j: nat): nat {
    i * ENTRIES + j
  }

  /** The frame that virtual page p is mapped to. */
  function Lookup(mem: seq<Frame>, pd: nat, p: nat): Option<nat>
    requires p < 0x10_0000
  {
    if pd >= |mem| then None
    else
      var pde := mem[pd][p / ENTRIES];
      if !Present(pde) || FrameOf(pde) >= |mem| then None
      else
        var pte := mem[FrameOf(pde)][p % ENTRIES];
        if Present(pte) then Some(FrameOf(pte)) else None
  }

  /** Where a word-aligned virtual address leads: a frame and a word in it. */
  function Translate(mem: seq<Frame>, pd: nat, vaddr: u32): Option<(nat, nat)> {
    match Lookup(mem, pd, vaddr / PAGE_SIZE)
    case None => None
    case Some(f) => Some((f, vaddr % PAGE_SIZE / 4))
  }

  /** pte_ptr */
  function PtePtr(vaddr: u32): u32 {
    0xffc0_0000 + PdeIdx(vaddr) * PAGE_SIZE + PteIdx(vaddr) * 4
  }

  /** pde_ptr */
  function PdePtr(vaddr: u32): u32 {
    0xffff_f000 + PdeIdx(vaddr) * 4
  }

  /** The frame of the page table behind directory entry i. */
  function TableFrame(mem: seq<Frame>, pd: nat, i: nat): nat
    requires pd < |mem| && i < ENTRIES
  {
    FrameOf(mem[pd][i])
  }

  predicate HasTable(mem: seq<Frame>, pd: nat, i: nat)
    requires pd < |mem| && i < ENTRIES
  {
    Present(mem[pd][i])
  }

  /** A page directory whose last entry names itself and whose other entries name page tables, each in a frame of its own. */
  ghost predicate Directory(mem: seq<Frame>, pd: nat) {
    && pd < |mem| <= 0x10_0000
    && mem[pd][SELF] == Entry(pd)
    && (forall i :: 0 <= i < SELF && HasTable(mem, pd, i) ==> TableFrame(mem, pd, i) < |mem| && TableFrame(mem, pd, i) != pd)
    && forall i, k :: 0 <= i < SELF && 0 <= k < SELF && i != k && HasTable(mem, pd, i) && HasTable(mem, pd, k) ==>
         TableFrame(mem, pd, i) != TableFrame(mem, pd, k)
  }

  /** Frame f holds the directory or one of its page tables. */
  ghost predicate IsTable(mem: seq<Frame>, pd: nat, f: nat)
    requires pd < |mem|
  {
    f == pd || exists i :: 0 <= i < SELF && HasTable(mem, pd, i) && TableFrame(mem, pd, i) == f
  }

  ghost predicate TableOpen(t: Frame) {
    forall j :: 0 <= j < ENTRIES && Present(t[j]) ==> UserWritable(t[j])
  }

  /** All page tables, and all entries in them that are present, are open to user code. */
  ghost predicate Open(mem: seq<Frame>, pd: nat) {
    && pd < |mem|
    && forall i :: 0 <= i < SELF && HasTable(mem, pd, i) ==>
         UserWritable(mem[pd][i]) && (TableFrame(mem, pd, i) < |mem| ==> TableOpen(mem[TableFrame(mem, pd, i)]))
  }

  /** User code may read and write page p, by the entries at both levels. */
  predicate UserAccess(mem: seq<Frame>, pd: nat, p: nat)
    requires p < 0x10_0000
  {
    && pd < |mem| && UserWritable(mem[pd][p / ENTRIES])
    && TableFrame(mem, pd, p / ENTRIES) < |mem| && UserWritable(mem[TableFrame(mem, pd, p / ENTRIES)][p % ENTRIES])
  }

  /** Then every mapped page is. */
  lemma OpenMeans(mem: seq<Frame>, pd: nat, p: nat)
    requires Open(mem, pd) && p < SELF * ENTRIES && Lookup(mem, pd, p).Some?
    ensures UserAccess(mem, pd, p)
  {
    hide UserWritable;
    var i := p / ENTRIES;
    assert HasTable(mem, pd, i) && TableFrame(mem, pd, i) < |mem| && Present(mem[TableFrame(mem, pd, i)][p % ENTRIES]);
  }

  /** pde_ptr reaches the directory entry of an address, and pte_ptr its page-table entry, in the directory that is active. */
  lemma SelfMap(mem: seq<Frame>, pd: nat, vaddr: u32)
    requires Directory(mem, pd)
    ensures Translate(mem, pd, PdePtr(vaddr)) == Some((pd, PdeIdx(vaddr)))
    ensures PdeIdx(vaddr) < SELF && HasTable(mem, pd, PdeIdx(vaddr)) ==>
              Translate(mem, pd, PtePtr(vaddr)) == Some((TableFrame(mem, pd, PdeIdx(vaddr)), PteIdx(vaddr)))
    ensures PdeIdx(vaddr) < SELF && !HasTable(mem, pd, PdeIdx(vaddr)) ==> Translate(mem, pd, PtePtr(vaddr)) == None
  {
    EntryFields(pd);
    var i, j := PdeIdx(vaddr), PteIdx(vaddr);
    assert PdePtr(vaddr) / PAGE_SIZE == SELF * ENTRIES + SELF && PdePtr(vaddr) % PAGE_SIZE == i * 4;
    assert PtePtr(vaddr) / PAGE_SIZE == SELF * ENTRIES + i && PtePtr(vaddr) % PAGE_SIZE == j * 4;
  }

  /** pde_ptr leads to every address's directory entry. */
  ghost predicate PdePtrRight(mem: seq<Frame>, pd: nat) {
    forall vaddr: u32 :: Translate(mem, pd, PdePtr(vaddr)) == Some((pd, PdeIdx(vaddr)))
  }

  /** The page-table entry of an address, if there is a page table. */
  function PteOf(mem: seq<Frame>, pd: nat, vaddr: u32): Option<(nat, nat)>
    requires pd < |mem|
  {
    if HasTable(mem, pd, PdeIdx(vaddr)) then Some((TableFrame(mem, pd, PdeIdx(vaddr)), PteIdx(vaddr))) else None
  }

  /** pte_ptr leads to every address's page-table entry, and nowhere if there is no page table. */
  ghost predicate PtePtrRight(mem: seq<Frame>, pd: nat)
    requires pd < |mem|
  {
    forall vaddr: u32 :: Translate(mem, pd, PtePtr(vaddr)) == PteOf(mem, pd, vaddr)
  }

  /** Where the two helpers look: in the frame that the directory's last entry names, taken for a page table. */
  lemma HelpersLook(mem: seq<Frame>, pd: nat, vaddr: u32)
    requires pd < |mem| <= 0x10_0000 && Present(mem[pd][SELF]) && FrameOf(mem[pd][SELF]) < |mem|
    ensures var t := mem[FrameOf(mem[pd][SELF])];
            && Translate(mem, pd, PdePtr(vaddr)) ==
               (if Present(t[SELF]) then Some((FrameOf(t[SELF]), PdeIdx(vaddr))) else None)
            && Translate(mem, pd, PtePtr(vaddr)) ==
               (if Present(t[PdeIdx(vaddr)]) then Some((FrameOf(t[PdeIdx(vaddr)]), PteIdx(vaddr))) else None)
  {
    var i, j := PdeIdx(vaddr), PteIdx(vaddr);
    assert PdePtr(vaddr) / PAGE_SIZE == SELF * ENTRIES + SELF && PdePtr(vaddr) % PAGE_SIZE == i * 4;
    assert PtePtr(vaddr) / PAGE_SIZE == SELF * ENTRIES + i && PtePtr(vaddr) % PAGE_SIZE == j * 4;
  }

  /** pde_ptr alone is right if and only if the last entry names a frame whose own last entry names the directory. */
  lemma PdePtrRightIff(mem: seq<Frame>, pd: nat)
    requires pd < |mem| <= 0x10_0000
    ensures PdePtrRight(mem, pd) <==>
            && Present(mem[pd][SELF]) && FrameOf(mem[pd][SELF]) < |mem|
            && Present(mem[FrameOf(mem[pd][SELF])][SELF]) && FrameOf(mem[FrameOf(mem[pd][SELF])][SELF]) == pd
  {
    assert PdePtr(0) / PAGE_SIZE == SELF * ENTRIES + SELF;
    if Present(mem[pd][SELF]) && FrameOf(mem[pd][SELF]) < |mem| {
      hide Translate;
      forall vaddr: u32
        ensures Present(mem[FrameOf(mem[pd][SELF])][SELF]) && FrameOf(mem[FrameOf(mem[pd][SELF])][SELF]) == pd ==>
                  Translate(mem, pd, PdePtr(vaddr)) == Some((pd, PdeIdx(vaddr)))
      {
        HelpersLook(mem, pd, vaddr);
      }
      HelpersLook(mem, pd, 0);
    } else {
      assert Translate(mem, pd, PdePtr(0)) == None;
    }
  }

  /** Both helpers are right for all addresses if and only if the directory's last entry names the directory itself. */
  lemma SelfMapIff(mem: seq<Frame>, pd: nat)
    requires pd < |mem| <= 0x10_0000
    ensures PdePtrRight(mem, pd) && PtePtrRight(mem, pd) <==> Present(mem[pd][SELF]) && FrameOf(mem[pd][SELF]) == pd
  {
    hide Translate;
    PdePtrRightIff(mem, pd);
    if Present(mem[pd][SELF]) && FrameOf(mem[pd][SELF]) < |mem| {
      forall vaddr: u32
        ensures FrameOf(mem[pd][SELF]) == pd ==> Translate(mem, pd, PtePtr(vaddr)) == PteOf(mem, pd, vaddr)
      {
        HelpersLook(mem, pd, vaddr);
      }
      HelpersLook(mem, pd, 0xffc0_0000);
      assert PdeIdx(0xffc0_0000) == SELF;
    }
  }

  /** Two frames whose last entries name each other: pde_ptr is right although the last entry does not name the directory. */
  lemma PdePtrRightWithoutSelf(mem: seq<Frame>)
    requires |mem| == 2 && mem[0][SELF] == Entry(1) && mem[1][SELF] == Entry(0)
    ensures PdePtrRight(mem, 0) && !PtePtrRight(mem, 0)
  {
    EntryFields(0);
    EntryFields(1);
    PdePtrRightIff(mem, 0);
    SelfMapIff(mem, 0);
  }

  // --- Changing entries ---

  /** One word of physical memory replaced. */
  function Store(mem: seq<Frame>, f: nat, k: nat, x: u32): (m: seq<Frame>)
    requires f < |mem| && k < ENTRIES
    ensures |m| == |mem|
  {
    mem[f := mem[f][k := x]]
  }

  lemma SameDirectory(mem: seq<Frame>, m: seq<Frame>, pd: nat)
    requires Directory(mem, pd) && |m| == |mem| && m[pd] == mem[pd]
    ensures Directory(m, pd)
    ensures forall k :: 0 <= k < ENTRIES ==>
              HasTable(m, pd, k) == HasTable(mem, pd, k) && TableFrame(m, pd, k) == TableFrame(mem, pd, k)
    ensures forall f: nat :: IsTable(m, pd, f) <==> IsTable(mem, pd, f)
  {
    assert forall k :: 0 <= k < ENTRIES ==>
             HasTable(m, pd, k) == HasTable(mem, pd, k) && TableFrame(m, pd, k) == TableFrame(mem, pd, k);
  }

  /** A page-table entry replaced: the mapping of its page changes and no other. */
  lemma StorePte(mem: seq<Frame>, pd: nat, i: nat, j: nat, x: u32)
    requires Directory(mem, pd) && i < SELF && j < ENTRIES && HasTable(mem, pd, i)
    ensures var m := Store(mem, TableFrame(mem, pd, i), j, x);
            && Directory(m, pd) && m[pd] == mem[pd]
            && forall p | 0 <= p < SELF * ENTRIES ::
                 Lookup(m, pd, p) == if p == Page(i, j) then (if Present(x) then Some(FrameOf(x)) else None) else Lookup(mem, pd, p)
  {
    var t := TableFrame(mem, pd, i);
    var m := Store(mem, t, j, x);
    SameDirectory(mem, m, pd);
    forall p | 0 <= p < SELF * ENTRIES
      ensures Lookup(m, pd, p) == if p == Page(i, j) then (if Present(x) then Some(FrameOf(x)) else None) else Lookup(mem, pd, p)
    {
      var k := p / ENTRIES;
      assert p == Page(k, p % ENTRIES);
      if HasTable(mem, pd, k) && k != i {
        assert TableFrame(mem, pd, k) != t;
      }
    }
  }

  lemma StillOpen(mem: seq<Frame>, pd: nat, i: nat, j: nat, x: u32)
    requires Directory(mem, pd) && Open(mem, pd) && i < SELF && j < ENTRIES && HasTable(mem, pd, i)
    requires Present(x) ==> UserWritable(x)
    ensures Open(Store(mem, TableFrame(mem, pd, i), j, x), pd)
  {
    hide UserWritable, TableOpen;
    var t := TableFrame(mem, pd, i);
    var m := Store(mem, t, j, x);
    SameDirectory(mem, m, pd);
    EntryChanged(mem[t], j, x);
    forall k | 0 <= k < SELF && HasTable(m, pd, k)
      ensures UserWritable(m[pd][k]) && (TableFrame(m, pd, k) < |m| ==> TableOpen(m[TableFrame(m, pd, k)]))
    {
      assert HasTable(mem, pd, k);
    }
  }

  lemma EntryChanged(t: Frame, j: nat, x: u32)
    requires TableOpen(t) && j < ENTRIES && (Present(x) ==> UserWritable(x))
    ensures TableOpen(t[j := x])
  {
    hide UserWritable, Present;
  }

  lemma OpenWithTable(mem: seq<Frame>, pd: nat, i: nat, t: nat)
    requires Directory(mem, pd) && Open(mem, pd) && i < SELF && !HasTable(mem, pd, i) && t < |mem| && !IsTable(mem, pd, t)
    ensures Open(Store(mem, pd, i, Entry(t))[t := ZeroFrame()], pd)
  {
    hide UserWritable, TableOpen;
    EntryFields(t);
    EntryWritable(t);
    assert TableOpen(ZeroFrame()) by {
      ZeroOpen();
    }
    hide Entry, FrameOf, ZeroFrame;
    var m := Store(mem, pd, i, Entry(t))[t := ZeroFrame()];
    assert pd != t;
    forall k | 0 <= k < SELF && HasTable(m, pd, k)
      ensures UserWritable(m[pd][k]) && (TableFrame(m, pd, k) < |m| ==> TableOpen(m[TableFrame(m, pd, k)]))
    {
      if k != i {
        assert HasTable(mem, pd, k) && IsTable(mem, pd, TableFrame(mem, pd, k));
      }
    }
  }

  lemma ZeroOpen()
    ensures TableOpen(ZeroFrame())
  {
  }

  /** A zeroed frame installed as the page table of an entry that had none: no mapping changes. */
  lemma InstallTable(mem: seq<Frame>, pd: nat, i: nat, t: nat)
    requires Directory(mem, pd) && i < SELF && !HasTable(mem, pd, i)
    requires t < |mem| && !IsTable(mem, pd, t)
    ensures var m := Store(mem, pd, i, Entry(t))[t := ZeroFrame()];
            && Directory(m, pd) && HasTable(m, pd, i) && TableFrame(m, pd, i) == t
            && (forall f :: 0 <= f < |mem| && f != pd && f != t ==> m[f] == mem[f])
            && (forall k :: 0 <= k < ENTRIES && k != i ==> m[pd][k] == mem[pd][k])
            && forall p :: 0 <= p < SELF * ENTRIES ==> Lookup(m, pd, p) == Lookup(mem, pd, p)
  {
    EntryFields(t);
    var m := Store(mem, pd, i, Entry(t))[t := ZeroFrame()];
    assert HasTable(m, pd, i) && TableFrame(m, pd, i) == t;
    assert forall k :: 0 <= k < SELF && k != i ==>
             HasTable(m, pd, k) == HasTable(mem, pd, k) && TableFrame(m, pd, k) == TableFrame(mem, pd, k);
    forall p | 0 <= p < SELF * ENTRIES
      ensures Lookup(m, pd, p) == Lookup(mem, pd, p)
    {
      var k := p / ENTRIES;
      if k == i {
        assert !HasTable(mem, pd, k) && m[t][p % ENTRIES] == 0;
      } else if HasTable(mem, pd, k) {
        assert TableFrame(mem, pd, k) != t;
      } else {
        assert !HasTable(m, pd, k);
      }
    }
  }

  /** Right after an entry has been set, pte_ptr's page is the new table's frame. */
  lemma InstallEntry(mem: seq<Frame>, pd: nat, i: nat, t: nat, vaddr: u32)
    requires Directory(mem, pd) && i < SELF && !HasTable(mem, pd, i) && i == PdeIdx(vaddr)
    requires t < |mem| && !IsTable(mem, pd, t)
    ensures Translate(Store(mem, pd, i, Entry(t)), pd, PtePtr(vaddr) / PAGE_SIZE * PAGE_SIZE) == Some((t, 0))
  {
    EntryFields(t);
    EntryFields(pd);
    var page := PtePtr(vaddr) / PAGE_SIZE * PAGE_SIZE;
    assert page / PAGE_SIZE == SELF * ENTRIES + i && page % PAGE_SIZE == 0;
  }

  /** Changing a frame that holds neither the directory nor a page table changes no mapping. */
  lemma StoreData(mem: seq<Frame>, pd: nat, f: nat, s: Frame)
    requires Directory(mem, pd) && f < |mem| && !IsTable(mem, pd, f)
    ensures Directory(mem[f := s], pd)
    ensures forall p :: 0 <= p < SELF * ENTRIES ==> Lookup(mem[f := s], pd, p) == Lookup(mem, pd, p)
  {
    SameDirectory(mem, mem[f := s], pd);
    forall p | 0 <= p < SELF * ENTRIES
      ensures Lookup(mem[f := s], pd, p) == Lookup(mem, pd, p)
    {
      var k := p / ENTRIES;
      if HasTable(mem, pd, k) {
        assert TableFrame(mem, pd, k) != f;
      }
    }
  }
}
