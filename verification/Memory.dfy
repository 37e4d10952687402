/** kernel/memory.c below the arenas: two pools of page frames, virtual-address bitmaps and the mapping of pages to frames. */
module Memory {
  import opened Words
  import opened Bitmaps
  import opened Paging

  /** mem_pool_init: the sizes and places of the pools; 16-bit counters truncate. */
  datatype Pools = Pools(kernelPages: nat, userPages: nat, kbmLength: nat, ubmLength: nat, kernelStart: nat, userStart: nat)

  function PoolInit(allMem: nat): Pools
    requires allMem >= 0x20_0000
  {
    var usedMem := 256 * PAGE_SIZE + 0x10_0000;
    var allFreePages := (allMem - usedMem) / PAGE_SIZE % 0x1_0000;
    var kernelFreePages := allFreePages / 2;
    var userFreePages := allFreePages - kernelFreePages;
    Pools(kernelFreePages, userFreePages, kernelFreePages / 8, userFreePages / 8, usedMem,
          usedMem + kernelFreePages * PAGE_SIZE)
  }

  /** mem_init passes 32 MB. */
  lemma PoolsOfMachine()
    ensures PoolInit(32 * 1024 * 1024) == Pools(3840, 3840, 480, 480, 0x20_0000, 0x110_0000)
  {
  }

  /** Where pfree clears a bit for the frame at paddr, counted from the first bit of the kernel pool: the user pool's bitmap
      follows the kernel pool's in memory. */
  function PfreeBit(l: Pools, paddr: nat): int {
    if paddr > l.userStart then 8 * l.kbmLength + (paddr - l.userStart) / PAGE_SIZE
    else (paddr - l.kernelStart) / PAGE_SIZE
  }

  /** Where palloc has set the bit for frame k of the user pool. */
  function UserBit(l: Pools, k: nat): nat {
    8 * l.kbmLength + k
  }

  /** pfree compares with `>`, so that the first user frame is looked up in the kernel pool. It still clears the bit that
      palloc set if and only if the number of kernel frames is a multiple of 8, as it is on this machine. */
  lemma FirstUserFrame(l: Pools, allMem: nat)
    requires allMem >= 0x20_0000 && l == PoolInit(allMem)
    ensures PfreeBit(l, l.userStart) == UserBit(l, 0) <==> l.kernelPages % 8 == 0
    ensures forall k: nat :: k > 0 ==> PfreeBit(l, l.userStart + k * PAGE_SIZE) == UserBit(l, k)
  {
  }

  datatype PoolFlag = PF_KERNEL | PF_USER

  const KERNEL_HEAP_PAGE: nat := 0xc_0100
  const USER_PAGE: nat := 0x8048

  /** The state of memory with one address space active: the bits of both frame pools, the bits of the kernel's and of the
      process's addresses, physical memory and the frame of the active page directory. */
  datatype Vm = Vm(frames: seq<bool>, kv: seq<bool>, uv: seq<bool>, mem: seq<Frame>, pd: nat) {
    function V(pf: PoolFlag): seq<bool> {
      if pf == PF_KERNEL then kv else uv
    }

    function WithV(pf: PoolFlag, v: seq<bool>): Vm {
      if pf == PF_KERNEL then this.(kv := v) else this.(uv := v)
    }
  }

  function FirstPage(pf: PoolFlag): nat {
    if pf == PF_KERNEL then KERNEL_HEAP_PAGE else USER_PAGE
  }

  /** The heap a page address belongs to. */
  function PfOf(p: nat): PoolFlag {
    if p >= 0xc_0000 then PF_KERNEL else PF_USER
  }

  predicate Heap(s: Vm, p: nat) {
    FirstPage(PfOf(p)) <= p < FirstPage(PfOf(p)) + |s.V(PfOf(p))|
  }

  /** The frame of bit b. */
  function FrameAt(l: Pools, b: nat): nat {
    l.kernelStart / PAGE_SIZE + b
  }

  function PoolBits(l: Pools): nat {
    8 * (l.kbmLength + l.ubmLength)
  }

  /** Bit b belongs to the pool that serves pf. */
  predicate InPool(l: Pools, pf: PoolFlag, b: int) {
    if pf == PF_KERNEL then 0 <= b < 8 * l.kbmLength else 8 * l.kbmLength <= b < PoolBits(l)
  }

  /** The bits of the pool that serves pf. */
  function PoolOf(l: Pools, pf: PoolFlag, frames: seq<bool>): seq<bool>
    requires |frames| == PoolBits(l)
  {
    if pf == PF_KERNEL then frames[..8 * l.kbmLength] else frames[8 * l.kbmLength..]
  }

  /** The pools are whole bytes of bits and the heaps stay clear of the directory's last entry. */
  predicate Fits(l: Pools, s: Vm) {
    && l.kernelPages == 8 * l.kbmLength && l.userPages == 8 * l.ubmLength
    && l.kernelStart % PAGE_SIZE == 0 && l.kernelStart >= 0x10_2000
    && l.userStart == l.kernelStart + l.kernelPages * PAGE_SIZE
    && |s.frames| == PoolBits(l)
    && s.pd < |s.mem| == FrameAt(l, PoolBits(l)) <= 0x10_0000
    && |s.kv| == l.kernelPages && KERNEL_HEAP_PAGE + |s.kv| <= SELF * ENTRIES
    && USER_PAGE + |s.uv| <= 0xc_0000
  }

  /** The frame that heap page p is mapped to. */
  function Mapping(s: Vm, p: nat): Option<nat> {
    if Heap(s, p) && p < SELF * ENTRIES then Lookup(s.mem, s.pd, p) else None
  }

  /** A mapped heap page has its address bit set, and its frame is one of the right pool, has its bit set and holds no page
      table. (A process's page directory is itself in a page of the kernel's heap.) */
  ghost predicate PageSound(l: Pools, s: Vm, p: nat)
    requires Fits(l, s)
  {
    Mapping(s, p).Some? ==>
      var f := Mapping(s, p).value;
      && InPool(l, PfOf(p), f - FrameAt(l, 0)) && s.frames[f - FrameAt(l, 0)]
      && s.V(PfOf(p))[p - FirstPage(PfOf(p))]
      && (f == s.pd || !IsTable(s.mem, s.pd, f))
  }

  /** Every heap page is sound, no two share a frame, frames that hold page tables are marked used, the tables of the
      kernel's half exist, and whatever is mapped is open to user code. */
  ghost predicate Sound(l: Pools, s: Vm) {
    && Fits(l, s) && Directory(s.mem, s.pd)
    && (forall p: nat :: PageSound(l, s, p))
    && (forall p: nat, q: nat :: Mapping(s, p).Some? && Mapping(s, p) == Mapping(s, q) ==> p == q)
    && (forall b: nat :: b < PoolBits(l) && IsTable(s.mem, s.pd, FrameAt(l, b)) ==> s.frames[b])
    && (forall i :: 768 <= i < SELF ==> HasTable(s.mem, s.pd, i))
    && Open(s.mem, s.pd)
  }

  /** User code may read and write every mapped page of the heaps, by the words of memory at both levels. */
  ghost predicate AllOpen(s: Vm) {
    forall p: nat :: Mapping(s, p).Some? ==> UserAccess(s.mem, s.pd, p)
  }

  lemma MappedIsOpen(l: Pools, s: Vm)
    requires Sound(l, s)
    ensures AllOpen(s)
  {
    hide Open, UserAccess, Lookup;
    forall p: nat | Mapping(s, p).Some?
      ensures UserAccess(s.mem, s.pd, p)
    {
      OpenMeans(s.mem, s.pd, p);
    }
  }

  /** The page tables, by directory entry. */
  ghost function Tables(s: Vm): map<nat, nat> {
    if s.pd < |s.mem| then map k: nat | k < SELF && HasTable(s.mem, s.pd, k) :: TableFrame(s.mem, s.pd, k) else map[]
  }

  /** Page tables have been added below the kernel's half, just in the frames of the bits `news`; the others have stayed. */
  ghost predicate MoreTables(l: Pools, m: map<nat, nat>, m': map<nat, nat>, news: set<nat>) {
    && (forall k :: k in m ==> k in m' && m'[k] == m[k])
    && (forall k :: k in m' && k !in m ==> k < 768 && m'[k] >= FrameAt(l, 0) && m'[k] - FrameAt(l, 0) in news)
    && (forall b :: b in news ==> TableAt(m, m', FrameAt(l, b)))
  }

  /** Frame f holds a page table of m' that m lacks. */
  ghost predicate TableAt(m: map<nat, nat>, m': map<nat, nat>, f: nat) {
    exists k :: k in m' && k !in m && m'[k] == f
  }

  lemma NoMoreTables(l: Pools, m: map<nat, nat>)
    ensures MoreTables(l, m, m, {})
  {
  }

  /** When none has been added, the tables are the same. */
  lemma TablesSame(l: Pools, m: map<nat, nat>, m': map<nat, nat>)
    requires MoreTables(l, m, m', {})
    ensures m' == m
  {
  }

  lemma MoreTablesTwice(l: Pools, m: map<nat, nat>, m': map<nat, nat>, m'': map<nat, nat>, news: set<nat>, more: set<nat>)
    requires MoreTables(l, m, m', news) && MoreTables(l, m', m'', more)
    ensures MoreTables(l, m, m'', news + more)
  {
    hide FrameAt, TableAt;
    forall k | k in m'' && k !in m
      ensures k < 768 && m''[k] >= FrameAt(l, 0) && m''[k] - FrameAt(l, 0) in news + more
    {
      if k in m' {
        assert m''[k] == m'[k];
      }
    }
    forall b | b in news + more
      ensures TableAt(m, m'', FrameAt(l, b))
    {
      TableStays(m, m', m'', FrameAt(l, b));
    }
  }

  lemma TableStays(m: map<nat, nat>, m': map<nat, nat>, m'': map<nat, nat>, f: nat)
    requires (forall k :: k in m ==> k in m') && (forall k :: k in m' ==> k in m'' && m''[k] == m'[k])
    ensures TableAt(m, m', f) || TableAt(m', m'', f) ==> TableAt(m, m'', f)
  {
  }

  /** The tables depend on the directory alone. */
  lemma TablesOfDirectory(s: Vm, t: Vm)
    requires s.pd == t.pd && s.pd < |s.mem| && t.pd < |t.mem| && t.mem[t.pd] == s.mem[s.pd]
    ensures Tables(t) == Tables(s)
  {
  }

  /** At first no heap page is mapped, and the directory and its tables lie below the pools. */
  lemma SoundInitially(l: Pools, s: Vm)
    requires Fits(l, s) && Directory(s.mem, s.pd) && s.pd < FrameAt(l, 0)
    requires forall i :: 0 <= i < SELF && HasTable(s.mem, s.pd, i) ==> TableFrame(s.mem, s.pd, i) < FrameAt(l, 0)
    requires forall i :: 768 <= i < SELF ==> HasTable(s.mem, s.pd, i)
    requires forall p: nat :: Mapping(s, p) == None
    requires Open(s.mem, s.pd)
    ensures Sound(l, s)
  {
    hide Mapping, Lookup, Open;
  }

  /** The frame of bit b holds no table and no heap page is mapped to it. */
  ghost predicate Unused(l: Pools, s: Vm, b: nat)
    requires Fits(l, s)
  {
    !IsTable(s.mem, s.pd, FrameAt(l, b)) && forall p: nat :: Mapping(s, p) != Some(FrameAt(l, b))
  }

  lemma ClearUnused(l: Pools, s: Vm, b: nat)
    requires Sound(l, s) && b < PoolBits(l) && !s.frames[b]
    ensures Unused(l, s, b)
  {
    forall p: nat
      ensures Mapping(s, p) != Some(FrameAt(l, b))
    {
      assert PageSound(l, s, p);
    }
  }

  /** The frames of heap pages are not among those that hold tables or that nothing uses. */
  lemma SoundContents(l: Pools, s: Vm, t: Vm)
    requires Sound(l, s) && |t.mem| == |s.mem|
    requires forall f :: 0 <= f < |s.mem| && t.mem[f] != s.mem[f] ==>
               IsTable(s.mem, s.pd, f) || (f >= FrameAt(l, 0) && Unused(l, s, f - FrameAt(l, 0)))
    ensures SameContents(s, t)
  {
    forall p: nat | Mapping(s, p).Some? && Mapping(t, p) == Mapping(s, p) && Mapping(s, p).value < |s.mem| && Mapping(s, p).value != s.pd
      ensures t.mem[Mapping(s, p).value] == s.mem[Mapping(s, p).value]
    {
      assert PageSound(l, s, p);
    }
  }

  // --- Single changes ---

  /** Taking a frame, or addresses, changes no mapping. */
  lemma Reserve(l: Pools, s: Vm, t: Vm)
    requires Sound(l, s) && t.mem == s.mem && t.pd == s.pd
    requires |t.frames| == |s.frames| && |t.kv| == |s.kv| && |t.uv| == |s.uv|
    requires forall b :: 0 <= b < |s.frames| && s.frames[b] ==> t.frames[b]
    requires forall i :: 0 <= i < |s.kv| && s.kv[i] ==> t.kv[i]
    requires forall i :: 0 <= i < |s.uv| && s.uv[i] ==> t.uv[i]
    ensures Sound(l, t)
    ensures forall p: nat :: Mapping(t, p) == Mapping(s, p)
  {
    assert forall p: nat :: Mapping(t, p) == Mapping(s, p);
    forall p: nat
      ensures PageSound(l, t, p)
    {
      assert PageSound(l, s, p);
    }
  }

  /** A zeroed frame becomes the page table of directory entry i, which had none. */
  lemma AddTable(l: Pools, s: Vm, i: nat, b: nat)
    requires Sound(l, s) && i < SELF && !HasTable(s.mem, s.pd, i)
    requires b < PoolBits(l) && s.frames[b] && Unused(l, s, b)
    ensures var t := s.(mem := Store(s.mem, s.pd, i, Entry(FrameAt(l, b)))[FrameAt(l, b) := ZeroFrame()]);
            && Sound(l, t) && HasTable(t.mem, t.pd, i)
            && (forall p: nat :: Mapping(t, p) == Mapping(s, p)) && SameContents(s, t)
            && MoreTables(l, Tables(s), Tables(t), {b})
            && (forall k :: 0 <= k < SELF && k != i ==> HasTable(t.mem, t.pd, k) == HasTable(s.mem, s.pd, k))
            && forall c: nat :: c != b && Unused(l, s, c) ==> Unused(l, t, c)
  {
    hide Lookup, SameContents, Entry, Present, ZeroFrame, Tables, MoreTables, Open;
    var f := FrameAt(l, b);
    InstallTable(s.mem, s.pd, i, f);
    OpenWithTable(s.mem, s.pd, i, f);
    var t := s.(mem := Store(s.mem, s.pd, i, Entry(f))[f := ZeroFrame()]);
    assert forall p: nat :: Mapping(t, p) == Mapping(s, p);
    forall k | 0 <= k < SELF && k != i
      ensures HasTable(t.mem, t.pd, k) == HasTable(s.mem, s.pd, k)
      ensures TableFrame(t.mem, t.pd, k) == TableFrame(s.mem, s.pd, k)
    {
    }
    assert forall g: nat :: IsTable(t.mem, t.pd, g) ==> g == f || IsTable(s.mem, s.pd, g);
    TableAdded(l, s, t, i, b);
    SoundContents(l, s, t);
    forall p: nat
      ensures PageSound(l, t, p)
    {
      assert PageSound(l, s, p);
    }
  }

  lemma TableAdded(l: Pools, s: Vm, t: Vm, i: nat, b: nat)
    requires s.pd == t.pd && s.pd < |s.mem| && t.pd < |t.mem| && i < 768 && !HasTable(s.mem, s.pd, i)
    requires HasTable(t.mem, t.pd, i) && TableFrame(t.mem, t.pd, i) == FrameAt(l, b)
    requires forall k :: 0 <= k < SELF && k != i ==>
               HasTable(t.mem, t.pd, k) == HasTable(s.mem, s.pd, k) && TableFrame(t.mem, t.pd, k) == TableFrame(s.mem, s.pd, k)
    ensures MoreTables(l, Tables(s), Tables(t), {b})
  {
    hide HasTable, TableFrame;
    assert i in Tables(t) && i !in Tables(s) && Tables(t)[i] == FrameAt(l, b);
  }

  /** A heap page whose address is taken gets a frame that nothing uses. */
  lemma MapPage(l: Pools, s: Vm, p: nat, b: nat)
    requires Sound(l, s) && Heap(s, p) && p < SELF * ENTRIES && HasTable(s.mem, s.pd, p / ENTRIES)
    requires s.V(PfOf(p))[p - FirstPage(PfOf(p))]
    requires InPool(l, PfOf(p), b) && s.frames[b] && Unused(l, s, b)
    ensures TableFrame(s.mem, s.pd, p / ENTRIES) < |s.mem|
    ensures var t := s.(mem := Store(s.mem, TableFrame(s.mem, s.pd, p / ENTRIES), p % ENTRIES, Entry(FrameAt(l, b))));
            && Sound(l, t) && Mapping(t, p) == Some(FrameAt(l, b)) && t.mem[t.pd] == s.mem[s.pd]
            && (forall q: nat :: q != p ==> Mapping(t, q) == Mapping(s, q)) && SameContents(s, t)
  {
    var f := FrameAt(l, b);
    EntryFields(f);
    EntryWritable(f);
    StorePte(s.mem, s.pd, p / ENTRIES, p % ENTRIES, Entry(f));
    StillOpen(s.mem, s.pd, p / ENTRIES, p % ENTRIES, Entry(f));
    hide Open, UserWritable;
    var t := s.(mem := Store(s.mem, TableFrame(s.mem, s.pd, p / ENTRIES), p % ENTRIES, Entry(f)));
    PteChanged(l, s, t, p);
  }

  /** What follows when the entry of one page has changed. */
  lemma PteChanged(l: Pools, s: Vm, t: Vm, p: nat)
    requires Sound(l, s) && t == s.(mem := t.mem) && |t.mem| == |s.mem| && t.mem[t.pd] == s.mem[s.pd]
    requires Heap(s, p) && Directory(t.mem, t.pd) && Open(t.mem, t.pd)
    requires forall q | 0 <= q < SELF * ENTRIES :: q != p ==> Lookup(t.mem, t.pd, q) == Lookup(s.mem, s.pd, q)
    requires HasTable(s.mem, s.pd, p / ENTRIES)
    requires forall f :: 0 <= f < |s.mem| && f != TableFrame(s.mem, s.pd, p / ENTRIES) ==> t.mem[f] == s.mem[f]
    requires Mapping(t, p).Some? ==>
               var b := Mapping(t, p).value - FrameAt(l, 0);
               InPool(l, PfOf(p), b) && s.frames[b] && Unused(l, s, b) && s.V(PfOf(p))[p - FirstPage(PfOf(p))]
    ensures Sound(l, t) && (forall q: nat :: q != p ==> Mapping(t, q) == Mapping(s, q)) && SameContents(s, t)
  {
    hide Lookup, SameContents, Open;
    SameDirectory(s.mem, t.mem, s.pd);
    assert forall q: nat :: q != p ==> Mapping(t, q) == Mapping(s, q);
    SoundContents(l, s, t);
    OnePageChanged(l, s, t, p);
  }

  lemma OnePageChanged(l: Pools, s: Vm, t: Vm, p: nat)
    requires Sound(l, s) && t == s.(mem := t.mem) && |t.mem| == |s.mem| && Directory(t.mem, t.pd) && Open(t.mem, t.pd)
    requires forall q: nat :: q != p ==> Mapping(t, q) == Mapping(s, q)
    requires forall f: nat :: IsTable(t.mem, t.pd, f) <==> IsTable(s.mem, s.pd, f)
    requires forall k :: 0 <= k < ENTRIES ==> HasTable(t.mem, t.pd, k) == HasTable(s.mem, s.pd, k)
    requires Heap(s, p) && (Mapping(t, p).Some? ==>
               var b := Mapping(t, p).value - FrameAt(l, 0);
               InPool(l, PfOf(p), b) && s.frames[b] && Unused(l, s, b) && s.V(PfOf(p))[p - FirstPage(PfOf(p))])
    ensures Sound(l, t)
  {
    hide Mapping, IsTable, HasTable, Open;
    forall q: nat
      ensures PageSound(l, t, q)
    {
      assert PageSound(l, s, q);
    }
  }

  /** The entry of a mapped page loses its present flag. */
  lemma DropEntry(l: Pools, s: Vm, p: nat, x: u32)
    requires Sound(l, s) && Mapping(s, p).Some? && Mapping(s, p) != Some(s.pd) && !Present(x)
    ensures HasTable(s.mem, s.pd, p / ENTRIES) && TableFrame(s.mem, s.pd, p / ENTRIES) < |s.mem|
    ensures 0 <= Mapping(s, p).value - FrameAt(l, 0) < PoolBits(l)
    ensures var t := s.(mem := Store(s.mem, TableFrame(s.mem, s.pd, p / ENTRIES), p % ENTRIES, x));
            && Sound(l, t) && Mapping(t, p) == None && (forall q: nat :: q != p ==> Mapping(t, q) == Mapping(s, q))
            && SameContents(s, t) && t.mem[t.pd] == s.mem[s.pd] && Unused(l, t, Mapping(s, p).value - FrameAt(l, 0))
  {
    hide SameContents, Open, UserWritable;
    assert PageSound(l, s, p);
    StorePte(s.mem, s.pd, p / ENTRIES, p % ENTRIES, x);
    StillOpen(s.mem, s.pd, p / ENTRIES, p % ENTRIES, x);
    assert p == Page(p / ENTRIES, p % ENTRIES);
    var t := s.(mem := Store(s.mem, TableFrame(s.mem, s.pd, p / ENTRIES), p % ENTRIES, x));
    PteChanged(l, s, t, p);
    SameDirectory(s.mem, t.mem, s.pd);
  }

  /** The frame of a mapped page is given back, the bit is cleared and the entry's present flag is dropped. */
  lemma UnmapPage(l: Pools, s: Vm, p: nat, x: u32)
    requires Sound(l, s) && Mapping(s, p).Some? && Mapping(s, p) != Some(s.pd) && !Present(x)
    ensures HasTable(s.mem, s.pd, p / ENTRIES) && TableFrame(s.mem, s.pd, p / ENTRIES) < |s.mem|
    ensures 0 <= Mapping(s, p).value - FrameAt(l, 0) < PoolBits(l)
    ensures var t := s.(mem := Store(s.mem, TableFrame(s.mem, s.pd, p / ENTRIES), p % ENTRIES, x),
                        frames := s.frames[Mapping(s, p).value - FrameAt(l, 0) := false]);
            && Sound(l, t) && Mapping(t, p) == None && (forall q: nat :: q != p ==> Mapping(t, q) == Mapping(s, q))
            && SameContents(s, t) && Tables(t) == Tables(s)
  {
    hide Lookup, Sound, Tables, Unused, Store;
    SoundFits(l, s);
    DropEntry(l, s, p, x);
    var b: nat := Mapping(s, p).value - FrameAt(l, 0);
    var t := s.(mem := Store(s.mem, TableFrame(s.mem, s.pd, p / ENTRIES), p % ENTRIES, x));
    TablesOfDirectory(s, t.(frames := s.frames[b := false]));
    GiveBack(l, t, b);
  }

  /** Clearing the bit of a frame that nothing uses. */
  lemma GiveBack(l: Pools, s: Vm, b: nat)
    requires Sound(l, s) && b < PoolBits(l) && Unused(l, s, b)
    ensures Sound(l, s.(frames := s.frames[b := false]))
    ensures forall p: nat :: Mapping(s.(frames := s.frames[b := false]), p) == Mapping(s, p)
  {
    var t := s.(frames := s.frames[b := false]);
    assert forall q: nat :: Mapping(t, q) == Mapping(s, q);
    forall q: nat
      ensures PageSound(l, t, q)
    {
      assert PageSound(l, s, q);
    }
  }

  /** Addresses of pages that are not mapped are given back. */
  lemma ReleaseAddresses(l: Pools, s: Vm, pf: PoolFlag, v: seq<bool>)
    requires Sound(l, s) && |v| == |s.V(pf)|
    requires forall i :: 0 <= i < |v| && s.V(pf)[i] && !v[i] ==> Mapping(s, FirstPage(pf) + i) == None
    ensures Sound(l, s.WithV(pf, v))
    ensures forall p: nat :: Mapping(s.WithV(pf, v), p) == Mapping(s, p)
  {
    hide Lookup, Directory, IsTable, Open;
    var t := s.WithV(pf, v);
    assert forall p: nat :: Mapping(t, p) == Mapping(s, p);
    forall p: nat
      ensures PageSound(l, t, p)
    {
      assert PageSound(l, s, p);
      if Mapping(s, p).Some? && PfOf(p) == pf {
        assert FirstPage(pf) + (p - FirstPage(pf)) == p;
      }
    }
  }

  // --- What malloc_page and mfree_page do ---

  /** Pages that stay mapped to the same frame keep their contents, the page directory's aside. */
  ghost predicate SameContents(s: Vm, t: Vm) {
    && |t.mem| == |s.mem|
    && forall p: nat :: Mapping(s, p).Some? && Mapping(t, p) == Mapping(s, p) && Mapping(s, p).value < |s.mem| && Mapping(s, p).value != s.pd ==>
         t.mem[Mapping(s, p).value] == s.mem[Mapping(s, p).value]
  }

  /** v with cnt entries from i on replaced. */
  function Fill(v: seq<bool>, i: nat, cnt: nat, x: bool): (r: seq<bool>)
    requires i + cnt <= |v|
    ensures |r| == |v| && forall k :: 0 <= k < |v| ==> r[k] == if i <= k < i + cnt then x else v[k]
  {
    Splice(v, i, seq(cnt, _ => x))
  }

  lemma FillNone(v: seq<bool>, i: nat, x: bool)
    requires i <= |v|
    ensures Fill(v, i, 0, x) == v
  {
  }

  lemma FillBack(v: seq<bool>, i: nat, cnt: nat)
    requires ClearRun(v, i, cnt)
    ensures Fill(Fill(v, i, cnt, true), i, cnt, false) == v
  {
  }

  lemma FillUp(v: seq<bool>, i: nat, cnt: nat, x: bool)
    requires i + cnt < |v|
    ensures Fill(v, i, cnt, x)[i + cnt := x] == Fill(v, i, cnt + 1, x)
  {
  }

  lemma FillDown(v: seq<bool>, i: nat, cnt: nat, x: bool)
    requires i + 1 + cnt <= |v|
    ensures Fill(v, i + 1, cnt, x)[i := x] == Fill(v, i, cnt + 1, x)
  {
  }

  /** cnt addresses from page v on have been taken, and the first |taken| of these pages have been mapped to the frames of
      the bits `taken`, which were free; `tables` are bits of kernel frames that were free and now hold page tables. */
  ghost predicate Grown(l: Pools, s: Vm, t: Vm, pf: PoolFlag, v: nat, cnt: nat, taken: seq<nat>, tables: set<nat>)
    requires Fits(l, s)
  {
    && Fits(l, t) && t.pd == s.pd && |taken| <= cnt
    && FirstPage(pf) <= v && v + cnt <= FirstPage(pf) + |s.V(pf)|
    && ClearRun(s.V(pf), v - FirstPage(pf), cnt)
    && t == s.WithV(pf, Fill(s.V(pf), v - FirstPage(pf), cnt, true)).(frames := t.frames, mem := t.mem)
    && (forall b :: b in taken ==> InPool(l, pf, b) && !s.frames[b] && b !in tables)
    && (forall b :: b in tables ==> InPool(l, PF_KERNEL, b) && !s.frames[b])
    && (pf == PF_KERNEL ==> tables == {}) && MoreTables(l, Tables(s), Tables(t), tables)
    && (forall b :: 0 <= b < PoolBits(l) ==> (t.frames[b] <==> s.frames[b] || b in taken || b in tables))
    && (forall k :: 0 <= k < |taken| ==> Mapping(t, v + k) == Some(FrameAt(l, taken[k])))
    && (forall p: nat :: !(v <= p < v + |taken|) ==> Mapping(t, p) == Mapping(s, p))
    && SameContents(s, t)
  }

  /** n mapped pages from page v on have been unmapped, and the bits of their frames cleared. */
  ghost predicate Freed(l: Pools, s: Vm, t: Vm, v: nat, n: nat)
    requires Fits(l, s)
  {
    && Fits(l, t) && t.pd == s.pd
    && (forall p: nat :: Mapping(t, p) == if v <= p < v + n then None else Mapping(s, p))
    && (forall b :: 0 <= b < PoolBits(l) ==>
          (t.frames[b] <==> s.frames[b] && forall p | v <= p < v + n :: Mapping(s, p) != Some(FrameAt(l, b))))
    && SameContents(s, t) && Tables(t) == Tables(s)
  }

  /** And their addresses as well. */
  ghost predicate Shrunk(l: Pools, s: Vm, t: Vm, pf: PoolFlag, v: nat, cnt: nat)
    requires Fits(l, s)
  {
    && FirstPage(pf) <= v && v + cnt <= FirstPage(pf) + |s.V(pf)|
    && Freed(l, s, t, v, cnt)
    && t == s.WithV(pf, Fill(s.V(pf), v - FirstPage(pf), cnt, false)).(frames := t.frames, mem := t.mem)
  }

  /** mfree_page undoes a successful malloc_page, but for the page tables that it made for a process. */
  lemma FreeUndoesMalloc(l: Pools, s: Vm, t: Vm, u: Vm, pf: PoolFlag, v: nat, cnt: nat, taken: seq<nat>, tables: set<nat>)
    requires Sound(l, s) && Grown(l, s, t, pf, v, cnt, taken, tables) && |taken| == cnt
    requires Shrunk(l, t, u, pf, v, cnt)
    ensures u.kv == s.kv && u.uv == s.uv && u.pd == s.pd
    ensures forall b :: 0 <= b < PoolBits(l) ==> (u.frames[b] <==> s.frames[b] || b in tables)
    ensures forall p: nat :: Mapping(u, p) == Mapping(s, p)
    ensures pf == PF_KERNEL ==> u.frames == s.frames
    ensures SameContents(s, u) && MoreTables(l, Tables(s), Tables(u), tables)
  {
    hide Mapping, Fill, SameContents, Tables, MoreTables;
    FillBack(s.V(pf), v - FirstPage(pf), cnt);
    PagesOfFreeAddresses(l, s, pf, v, cnt);
    ContentsTwice(s, t, t, u, v, cnt);
    forall b | 0 <= b < PoolBits(l)
      ensures u.frames[b] <==> s.frames[b] || b in tables
    {
      if b in taken {
        var k :| 0 <= k < |taken| && taken[k] == b;
        assert Mapping(t, v + k) == Some(FrameAt(l, b));
      } else if t.frames[b] {
        forall p | v <= p < v + cnt
          ensures Mapping(t, p) != Some(FrameAt(l, b))
        {
          assert p == v + (p - v) && taken[p - v] != b;
        }
      }
    }
  }

  /** Page p has been mapped to the frame of bit b; `news` is the bit of the kernel frame that became its page table, if one
      was needed. */
  ghost predicate Added(l: Pools, s: Vm, t: Vm, p: nat, b: nat, news: set<nat>)
    requires Fits(l, s)
  {
    && Fits(l, t) && t == s.(frames := t.frames, mem := t.mem)
    && Mapping(t, p) == Some(FrameAt(l, b)) && (forall q: nat :: q != p ==> Mapping(t, q) == Mapping(s, q))
    && (forall c :: c in news ==> InPool(l, PF_KERNEL, c) && !s.frames[c])
    && (forall c :: 0 <= c < PoolBits(l) ==> (t.frames[c] <==> s.frames[c] || c in news))
    && SameContents(s, t) && MoreTables(l, Tables(s), Tables(t), news)
  }

  lemma AddedIsOpen(l: Pools, s: Vm, t: Vm, p: nat, b: nat, news: set<nat>)
    requires Fits(l, s) && Added(l, s, t, p, b, news) && Sound(l, t)
    ensures AllOpen(t) && p < SELF * ENTRIES && UserAccess(t.mem, t.pd, p)
  {
    hide Sound, UserAccess, Lookup, Tables, MoreTables, SameContents;
    MappedIsOpen(l, t);
  }

  lemma PagesOfFreeAddresses(l: Pools, s: Vm, pf: PoolFlag, v: nat, cnt: nat)
    requires Sound(l, s) && FirstPage(pf) <= v && ClearRun(s.V(pf), v - FirstPage(pf), cnt)
    ensures forall p: nat :: v <= p < v + cnt ==> PfOf(p) == pf && Heap(s, p) && Mapping(s, p) == None
  {
    forall p: nat | v <= p < v + cnt
      ensures PfOf(p) == pf && Heap(s, p) && Mapping(s, p) == None
    {
      assert PageSound(l, s, p);
      assert !s.V(pf)[p - FirstPage(pf)];
    }
  }

  lemma GrownStep(l: Pools, s: Vm, t: Vm, u: Vm, pf: PoolFlag, v: nat, cnt: nat, taken: seq<nat>, tables: set<nat>,
                  b: nat, news: set<nat>)
    requires Sound(l, s) && Grown(l, s, t, pf, v, cnt, taken, tables) && |taken| < cnt
    requires InPool(l, pf, b) && !t.frames[b] && (pf == PF_KERNEL ==> news == {})
    requires Fits(l, t.(frames := t.frames[b := true]))
    requires Added(l, t.(frames := t.frames[b := true]), u, v + |taken|, b, news)
    ensures Grown(l, s, u, pf, v, cnt, taken + [b], tables + news)
  {
    hide Mapping, SameContents, Fill, MoreTables, Tables;
    PagesOfFreeAddresses(l, s, pf, v, cnt);
    SameDirectoryTables(t, t.(frames := t.frames[b := true]));
    MoreTablesTwice(l, Tables(s), Tables(t), Tables(u), tables, news);
    var t' := t.(frames := t.frames[b := true]);
    SameMappings(t, t');
    assert b !in news;
    assert (taken + [b])[|taken|] == b;
    forall c | 0 <= c < PoolBits(l)
      ensures u.frames[c] <==> s.frames[c] || c in taken + [b] || c in tables + news
    {
      assert t'.frames[c] <==> t.frames[c] || c == b;
    }
    ContentsTwice(s, t, t', u, v, cnt);
  }

  lemma SameDirectoryTables(s: Vm, t: Vm)
    requires t.mem == s.mem && t.pd == s.pd
    ensures Tables(t) == Tables(s)
  {
  }

  lemma SameMappings(s: Vm, t: Vm)
    requires t == s.(frames := t.frames)
    ensures forall p: nat :: Mapping(t, p) == Mapping(s, p)
  {
  }

  lemma ContentsTwice(s: Vm, t: Vm, t': Vm, u: Vm, v: nat, cnt: nat)
    requires SameContents(s, t) && SameContents(t', u) && t'.mem == t.mem && s.pd == t'.pd
    requires forall p: nat :: Mapping(t', p) == Mapping(t, p)
    requires forall p: nat :: v <= p < v + cnt ==> Mapping(s, p) == None
    requires forall p: nat :: !(v <= p < v + cnt) ==> Mapping(t, p) == Mapping(s, p)
    ensures SameContents(s, u)
  {
    hide Mapping;
    forall p: nat | Mapping(s, p).Some? && Mapping(u, p) == Mapping(s, p) && Mapping(s, p).value < |s.mem| && Mapping(s, p).value != s.pd
      ensures u.mem[Mapping(s, p).value] == s.mem[Mapping(s, p).value]
    {
      assert Mapping(t, p) == Mapping(s, p);
    }
  }

  lemma SoundFits(l: Pools, s: Vm)
    requires Sound(l, s)
    ensures Fits(l, s) && Directory(s.mem, s.pd)
  {
  }

  /** Page p can be mapped to the frame of bit b, but for a page table. */
  ghost predicate Addable(l: Pools, s: Vm, p: nat, b: nat) {
    && Fits(l, s) && p < SELF * ENTRIES && Heap(s, p) && s.V(PfOf(p))[p - FirstPage(PfOf(p))]
    && Mapping(s, p) == None
    && InPool(l, PfOf(p), b) && s.frames[b] && Unused(l, s, b)
  }

  function TableOf(l: Pools, s: Vm, i: nat, c: nat): Vm
    requires Fits(l, s) && i < SELF && c < PoolBits(l)
  {
    s.(frames := s.frames[c := true], mem := Store(s.mem, s.pd, i, Entry(FrameAt(l, c)))[FrameAt(l, c) := ZeroFrame()])
  }

  function MapOf(l: Pools, s: Vm, p: nat, b: nat): Vm
    requires Fits(l, s) && Directory(s.mem, s.pd) && p < SELF * ENTRIES && b < PoolBits(l)
    requires HasTable(s.mem, s.pd, p / ENTRIES)
  {
    s.(mem := Store(s.mem, TableFrame(s.mem, s.pd, p / ENTRIES), p % ENTRIES, Entry(FrameAt(l, b))))
  }

  /** Page p has been mapped to the frame of bit b by these writes to memory and no others. */
  ghost predicate Via(l: Pools, s: Vm, t: Vm, p: nat, b: nat, news: set<nat>) {
    && Fits(l, s) && Directory(s.mem, s.pd) && p < SELF * ENTRIES && b < PoolBits(l)
    && if HasTable(s.mem, s.pd, p / ENTRIES) then news == {} && t == MapOf(l, s, p, b)
       else exists c: nat :: news == {c} && ViaTable(l, s, t, p, b, c)
  }

  ghost predicate ViaTable(l: Pools, s: Vm, t: Vm, p: nat, b: nat, c: nat)
    requires Fits(l, s) && p < SELF * ENTRIES && b < PoolBits(l)
  {
    && c < PoolBits(l)
    && var m := TableOf(l, s, p / ENTRIES, c);
       && Fits(l, m) && Directory(m.mem, m.pd) && HasTable(m.mem, m.pd, p / ENTRIES) && t == MapOf(l, m, p, b)
  }

  lemma ViaSteps(l: Pools, s: Vm, m: Vm, t: Vm, p: nat, b: nat, news: set<nat>)
    requires Fits(l, s) && Directory(s.mem, s.pd) && p < SELF * ENTRIES && b < PoolBits(l)
    requires Fits(l, m) && Directory(m.mem, m.pd) && HasTable(m.mem, m.pd, p / ENTRIES) && t == MapOf(l, m, p, b)
    requires if HasTable(s.mem, s.pd, p / ENTRIES) then news == {} && m == s
             else exists c: nat :: c < PoolBits(l) && news == {c} && m == TableOf(l, s, p / ENTRIES, c)
    ensures Via(l, s, t, p, b, news)
  {
    hide TableOf, MapOf, Directory;
    if !HasTable(s.mem, s.pd, p / ENTRIES) {
      var c: nat :| c < PoolBits(l) && news == {c} && m == TableOf(l, s, p / ENTRIES, c);
      assert ViaTable(l, s, t, p, b, c);
    }
  }

  lemma AddableStill(l: Pools, s: Vm, p: nat, b: nat, c: nat)
    requires Sound(l, s) && Addable(l, s, p, b) && !HasTable(s.mem, s.pd, p / ENTRIES)
    requires InPool(l, PF_KERNEL, c) && !s.frames[c]
    ensures var t := TableOf(l, s, p / ENTRIES, c);
            && t == s.(frames := s.frames[c := true], mem := t.mem)
            && Sound(l, t) && Addable(l, t, p, b) && HasTable(t.mem, t.pd, p / ENTRIES)
            && (forall q: nat :: Mapping(t, q) == Mapping(s, q)) && SameContents(s, t)
            && MoreTables(l, Tables(s), Tables(t), {c})
            && forall k :: 0 <= k < SELF && k != p / ENTRIES ==> HasTable(t.mem, t.pd, k) == HasTable(s.mem, s.pd, k)
  {
    hide Lookup, ZeroFrame, Entry, Tables, MoreTables;
    ClearUnused(l, s, c);
    var m := s.(frames := s.frames[c := true]);
    SameDirectoryTables(s, m);
    Reserve(l, s, m);
    AddTable(l, m, p / ENTRIES, c);
    assert Unused(l, m, b);
  }

  /** Page p has a page table, which took the bits `news`, and nothing else has changed. */
  ghost predicate ReadyFor(l: Pools, s: Vm, m: Vm, p: nat, b: nat, news: set<nat>) {
    && Addable(l, s, p, b) && Directory(s.mem, s.pd) && Sound(l, m) && Addable(l, m, p, b) && HasTable(m.mem, m.pd, p / ENTRIES)
    && m == s.(frames := m.frames, mem := m.mem) && SameContents(s, m)
    && (forall q: nat :: Mapping(m, q) == Mapping(s, q))
    && (forall c :: c in news ==> InPool(l, PF_KERNEL, c) && !s.frames[c])
    && (forall c :: 0 <= c < PoolBits(l) ==> (m.frames[c] <==> s.frames[c] || c in news))
    && MoreTables(l, Tables(s), Tables(m), news)
    && if HasTable(s.mem, s.pd, p / ENTRIES) then news == {} && m == s
       else exists c: nat :: c < PoolBits(l) && news == {c} && m == TableOf(l, s, p / ENTRIES, c)
  }

  lemma ReadyHas(l: Pools, s: Vm, m: Vm, p: nat, b: nat, news: set<nat>)
    requires ReadyFor(l, s, m, p, b, news)
    ensures Fits(l, s) && Directory(s.mem, s.pd) && p < SELF * ENTRIES && b < PoolBits(l)
    ensures Fits(l, m) && Directory(m.mem, m.pd) && HasTable(m.mem, m.pd, p / ENTRIES)
    ensures TableFrame(m.mem, m.pd, p / ENTRIES) < |m.mem|
    ensures if HasTable(s.mem, s.pd, p / ENTRIES) then news == {} && m == s
            else exists c: nat :: c < PoolBits(l) && news == {c} && m == TableOf(l, s, p / ENTRIES, c)
    ensures m == s.(frames := m.frames, mem := m.mem)
  {
    hide MoreTables, Tables, Mapping, SameContents, TableOf, Sound;
    SoundFits(l, m);
  }

  lemma SameSelf(s: Vm)
    ensures SameContents(s, s)
  {
    hide Mapping;
  }

  /** A page that is not mapped has no entry that is present. */
  lemma NotPresent(l: Pools, s: Vm, p: nat)
    requires Fits(l, s) && Directory(s.mem, s.pd) && p < SELF * ENTRIES && Heap(s, p) && Mapping(s, p) == None
    requires HasTable(s.mem, s.pd, p / ENTRIES)
    ensures !Present(s.mem[TableFrame(s.mem, s.pd, p / ENTRIES)][p % ENTRIES])
  {
  }

  lemma AddedStep(l: Pools, s: Vm, m: Vm, p: nat, b: nat, news: set<nat>)
    requires ReadyFor(l, s, m, p, b, news)
    ensures Heap(m, p) && Mapping(m, p) == None
    ensures Sound(l, MapOf(l, m, p, b)) && Added(l, s, MapOf(l, m, p, b), p, b, news)
    ensures TableFrame(m.mem, m.pd, p / ENTRIES) < |m.mem| && MapOf(l, m, p, b).mem[m.pd] == m.mem[m.pd]
  {
    hide SameContents, Lookup, Tables, MoreTables;
    MapPage(l, m, p, b);
    TablesOfDirectory(m, MapOf(l, m, p, b));
    ContentsTwice(s, m, m, MapOf(l, m, p, b), p, 1);
  }

  /** Between palloc and page_table_add. */
  lemma ReadyToAdd(l: Pools, s: Vm, t: Vm, pf: PoolFlag, v: nat, cnt: nat, taken: seq<nat>, tables: set<nat>, b: nat)
    requires Sound(l, s) && Sound(l, t) && Grown(l, s, t, pf, v, cnt, taken, tables) && |taken| < cnt
    requires InPool(l, pf, b) && !t.frames[b]
    ensures var t' := t.(frames := t.frames[b := true]); Sound(l, t') && Addable(l, t', v + |taken|, b)
  {
    hide Lookup, SameContents;
    PagesOfFreeAddresses(l, s, pf, v, cnt);
    ClearUnused(l, t, b);
    Reserve(l, t, t.(frames := t.frames[b := true]));
  }

  lemma SamePool(l: Pools, pf: PoolFlag, f: seq<bool>, g: seq<bool>)
    requires |f| == |g| == PoolBits(l)
    requires forall b :: InPool(l, pf, b) ==> f[b] == g[b]
    ensures PoolOf(l, pf, f) == PoolOf(l, pf, g)
  {
  }

  /** Where the self-map leads while a page table is being made. */
  lemma TablePlace(l: Pools, s: Vm, c: nat, vaddr: u32)
    requires Sound(l, s) && PdeIdx(vaddr) < SELF && !HasTable(s.mem, s.pd, PdeIdx(vaddr))
    requires InPool(l, PF_KERNEL, c) && !s.frames[c]
    ensures FrameAt(l, c) < |s.mem| && Translate(s.mem, s.pd, PdePtr(vaddr)) == Some((s.pd, PdeIdx(vaddr)))
    ensures Translate(Store(s.mem, s.pd, PdeIdx(vaddr), Entry(FrameAt(l, c))), s.pd, PtePtr(vaddr) / PAGE_SIZE * PAGE_SIZE)
            == Some((FrameAt(l, c), 0))
  {
    SelfMap(s.mem, s.pd, vaddr);
    ClearUnused(l, s, c);
    InstallEntry(s.mem, s.pd, PdeIdx(vaddr), FrameAt(l, c), vaddr);
  }

  /** The memory manager, with the address space that is active. */
  class Manager {
    const pools: Pools
    /** The bytes at MEMORY_BITMAP_BASE: kernel pool, user pool, kernel addresses */
    const bits: array<byte>
    const kernelPool: Bitmap
    const userPool: Bitmap
    const kernelVaddr: Bitmap
    const userVaddr: Bitmap
    /** Physical memory, and the frame of the active page directory */
    var mem: seq<Frame>
    var pd: nat

    constructor (pools: Pools, bits: array<byte>, userBits: array<byte>, mem: seq<Frame>, pd: nat)
      requires bits.Length == 2 * pools.kbmLength + pools.ubmLength && bits != userBits
      ensures Shape() && this.pools == pools && this.bits == bits && userVaddr.bits == userBits
      ensures this.mem == mem && this.pd == pd
    {
      this.pools, this.bits, this.mem, this.pd := pools, bits, mem, pd;
      kernelPool := new Bitmap(bits, 0, pools.kbmLength);
      userPool := new Bitmap(bits, pools.kbmLength, pools.ubmLength);
      kernelVaddr := new Bitmap(bits, pools.kbmLength + pools.ubmLength, pools.kbmLength);
      userVaddr := new Bitmap(userBits, 0, userBits.Length);
    }

    ghost predicate Shape() {
      && bits.Length == 2 * pools.kbmLength + pools.ubmLength
      && kernelPool.bits == bits && userPool.bits == bits && kernelVaddr.bits == bits && userVaddr.bits != bits
      && kernelPool.start == 0 && kernelPool.bytesLen == pools.kbmLength
      && userPool.start == pools.kbmLength && userPool.bytesLen == pools.ubmLength
      && kernelVaddr.start == pools.kbmLength + pools.ubmLength && kernelVaddr.bytesLen == pools.kbmLength
      && userVaddr.start == 0 && userVaddr.bytesLen == userVaddr.bits.Length
    }

    ghost function State(): Vm
      requires Shape()
      reads this, bits, userVaddr.bits
    {
      Vm(BitsOf(bits[..])[..PoolBits(pools)], BitsOf(bits[..])[PoolBits(pools)..], BitsOf(userVaddr.bits[..]), mem, pd)
    }

    ghost predicate Valid()
      reads this, bits, userVaddr.bits
    {
      Shape() && Sound(pools, State())
    }

    function Pool(pf: PoolFlag): Bitmap {
      if pf == PF_KERNEL then kernelPool else userPool
    }

    function Vaddr(pf: PoolFlag): Bitmap {
      if pf == PF_KERNEL then kernelVaddr else userVaddr
    }

    lemma PoolBitsOf(pf: PoolFlag)
      requires Shape()
      ensures Pool(pf).Valid() && Pool(pf).bits == bits && Pool(pf).Bits() == PoolOf(pools, pf, State().frames)
    {
    }

    lemma VaddrBitsOf(pf: PoolFlag)
      requires Shape()
      ensures Vaddr(pf).Valid() && Vaddr(pf).Bits() == State().V(pf)
    {
    }

    /** bitmap_set on a pool. The index may run past the pool's own bits into the next pool's. */
    method SetFrame(pf: PoolFlag, i: nat, v: bool)
      requires Shape() && Fits(pools, State()) && 8 * Pool(pf).start + i < PoolBits(pools)
      modifies bits
      ensures State() == old(State()).(frames := old(State()).frames[8 * Pool(pf).start + i := v])
    {
      hide BitsOf;
      Pool(pf).Set(i, v);
      assert State().frames == old(State()).frames[8 * Pool(pf).start + i := v];
      assert State().kv == old(State()).kv;
    }

    /** palloc: the address of the pool's first free frame, or 0 if there is none. */
    method Palloc(pf: PoolFlag) returns (paddr: nat, ghost b: nat)
      requires Shape() && Fits(pools, State())
      modifies bits
      ensures Shape() && Fits(pools, State())
      ensures paddr == 0 <==> CountClear(PoolOf(pools, pf, old(State()).frames)) == 0
      ensures paddr == 0 ==> State() == old(State())
      ensures paddr != 0 ==>
                && paddr == FrameAt(pools, b) * PAGE_SIZE && InPool(pools, pf, b) && !old(State()).frames[b]
                && (forall c :: 0 <= c < b && InPool(pools, pf, c) ==> old(State()).frames[c])
                && State() == old(State()).(frames := old(State()).frames[b := true])
                && CountClear(PoolOf(pools, pf, State().frames)) == CountClear(PoolOf(pools, pf, old(State()).frames)) - 1
    {
      hide BitsOf, CountClear, PoolOf;
      ghost var s := State();
      PoolBitsOf(pf);
      b := 0;
      var bitIdx := Pool(pf).Scan(1);
      if bitIdx == -1 {
        NoneClear(Pool(pf).Bits());
        return 0, 0;
      }
      FirstClear(pools, pf, s.frames, bitIdx);
      SetFrame(pf, bitIdx, true);
      paddr := (if pf == PF_KERNEL then pools.kernelStart else pools.userStart) + bitIdx * PAGE_SIZE;
      b := 8 * Pool(pf).start + bitIdx;
    }
  
    /** A word of memory at a virtual address. */
    method Load(vaddr: u32) returns (x: u32)
      requires Translate(mem, pd, vaddr).Some? && Translate(mem, pd, vaddr).value.0 < |mem|
      ensures var (f, k) := Translate(mem, pd, vaddr).value; x == mem[f][k]
    {
      var at := Translate(mem, pd, vaddr).value;
      x := mem[at.0][at.1];
    }

    method Put(vaddr: u32, x: u32)
      requires Translate(mem, pd, vaddr).Some? && Translate(mem, pd, vaddr).value.0 < |mem|
      modifies this`mem
      ensures var (f, k) := old(Translate(mem, pd, vaddr)).value; mem == Store(old(mem), f, k, x)
    {
      var at := Translate(mem, pd, vaddr).value;
      mem := Store(mem, at.0, at.1, x);
    }

    /** memset(page, 0, PAGE_SIZE) */
    method ZeroPage(vaddr: u32)
      requires Translate(mem, pd, vaddr).Some? && Translate(mem, pd, vaddr).value.0 < |mem| && vaddr % PAGE_SIZE == 0
      modifies this`mem
      ensures mem == old(mem)[old(Translate(mem, pd, vaddr)).value.0 := ZeroFrame()]
    {
      mem := mem[Translate(mem, pd, vaddr).value.0 := ZeroFrame()];
    }

    /** page_table_add. The ghost argument is the bit of the frame at paddr, which palloc has just taken. */
    method PageTableAdd(vaddr: u32, paddr: u32, ghost b: nat) returns (ghost news: set<nat>)
      requires Valid() && vaddr % PAGE_SIZE == 0 && Addable(pools, State(), vaddr / PAGE_SIZE, b)
      requires paddr == FrameAt(pools, b) * PAGE_SIZE
      requires HasTable(mem, pd, vaddr / PAGE_SIZE / ENTRIES)
               || CountClear(PoolOf(pools, PF_KERNEL, State().frames)) > 0
      modifies this`mem, bits
      ensures Valid() && Added(pools, old(State()), State(), vaddr / PAGE_SIZE, b, news)
      ensures Via(pools, old(State()), State(), vaddr / PAGE_SIZE, b, news)
      ensures UserAccess(mem, pd, vaddr / PAGE_SIZE) && AllOpen(State())
      ensures CountClear(PoolOf(pools, PF_KERNEL, State().frames)) ==
              CountClear(PoolOf(pools, PF_KERNEL, old(State()).frames)) - |news|
      ensures if old(HasTable(mem, pd, vaddr / PAGE_SIZE / ENTRIES)) then news == {} else |news| == 1
      ensures forall k :: 0 <= k < SELF ==>
                (HasTable(mem, pd, k) <==> k == vaddr / PAGE_SIZE / ENTRIES || old(HasTable(mem, pd, k)))
    {
      hide CountClear, PoolOf, Added, Sound, BitsOf, TableOf, Translate, Tables, MoreTables, ReadyFor, Addable, AllOpen, UserAccess;
      ghost var p := vaddr / PAGE_SIZE;
      ghost var s := State();
      assert PdeIdx(vaddr) == p / ENTRIES && PteIdx(vaddr) == p % ENTRIES;
      news := EnsureTable(vaddr, b);
      ReadyHas(pools, s, State(), p, b, news);
      SelfMap(mem, pd, vaddr);
      ghost var m := State();
      var pte := Load(PtePtr(vaddr));
      AddedStep(pools, s, State(), p, b, news);
      NotPresent(pools, m, p);
      assert !Present(pte);
      Put(PtePtr(vaddr), paddr + FLAGS);
      ViaSteps(pools, s, m, State(), p, b, news);
      AddedIsOpen(pools, s, State(), p, b, news);
    }

    /** The first half of page_table_add: the page table exists. */
    method EnsureTable(vaddr: u32, ghost b: nat) returns (ghost news: set<nat>)
      requires Valid() && vaddr % PAGE_SIZE == 0 && Addable(pools, State(), vaddr / PAGE_SIZE, b)
      requires HasTable(mem, pd, vaddr / PAGE_SIZE / ENTRIES)
               || CountClear(PoolOf(pools, PF_KERNEL, State().frames)) > 0
      modifies this`mem, bits
      ensures Shape() && ReadyFor(pools, old(State()), State(), vaddr / PAGE_SIZE, b, news)
      ensures CountClear(PoolOf(pools, PF_KERNEL, State().frames)) ==
              CountClear(PoolOf(pools, PF_KERNEL, old(State()).frames)) - |news|
      ensures if old(HasTable(mem, pd, vaddr / PAGE_SIZE / ENTRIES)) then news == {} else |news| == 1
      ensures forall k :: 0 <= k < SELF ==>
                (HasTable(mem, pd, k) <==> k == vaddr / PAGE_SIZE / ENTRIES || old(HasTable(mem, pd, k)))
    {
      hide CountClear, PoolOf, Sound, BitsOf, TableOf, Translate, Tables, MoreTables, SameContents, Mapping;
      ghost var p := vaddr / PAGE_SIZE;
      ghost var s := State();
      SoundFits(pools, s);
      assert PdeIdx(vaddr) == p / ENTRIES && PteIdx(vaddr) == p % ENTRIES;
      SelfMap(mem, pd, vaddr);
      var pde := Load(PdePtr(vaddr));
      news := {};
      NoMoreTables(pools, Tables(s));
      SameSelf(s);
      if !Present(pde) {
        ghost var c := NewTable(vaddr);
        news := {c};
        AddableStill(pools, s, p, b, c);
      }
    }

    /** The branch of page_table_add that makes a page table. */
    method NewTable(vaddr: u32) returns (ghost c: nat)
      requires Valid() && vaddr % PAGE_SIZE == 0 && PdeIdx(vaddr) < SELF && !HasTable(mem, pd, PdeIdx(vaddr))
      requires CountClear(PoolOf(pools, PF_KERNEL, State().frames)) > 0
      modifies this`mem, bits
      ensures Shape() && InPool(pools, PF_KERNEL, c) && c < |old(State()).frames| && !old(State()).frames[c]
      ensures Fits(pools, old(State())) && State() == TableOf(pools, old(State()), PdeIdx(vaddr), c)
      ensures CountClear(PoolOf(pools, PF_KERNEL, State().frames)) ==
              CountClear(PoolOf(pools, PF_KERNEL, old(State()).frames)) - 1
    {
      hide CountClear, PoolOf, Sound, BitsOf, Translate, Lookup, Directory, Store, FrameAt;
      ghost var s := State();
      SoundFits(pools, s);
      var t;
      t, c := Palloc(PF_KERNEL);
      TablePlace(pools, s, c, vaddr);
      Put(PdePtr(vaddr), t + FLAGS);
      ZeroPage(PtePtr(vaddr) / PAGE_SIZE * PAGE_SIZE);
    }

    method SetVaddr(pf: PoolFlag, i: nat, v: bool)
      requires Shape() && i < |State().V(pf)|
      modifies bits, userVaddr.bits
      ensures State() == old(State()).WithV(pf, old(State()).V(pf)[i := v])
    {
      hide BitsOf;
      Vaddr(pf).Set(i, v);
      assert State().V(pf) == old(State()).V(pf)[i := v];
      assert State().frames == old(State()).frames;
    }

    /** The loop of vaddr_get. */
    method TakeAddresses(pf: PoolFlag, start: nat, pgCnt: nat)
      requires Shape() && start + pgCnt <= |State().V(pf)|
      modifies bits, userVaddr.bits
      ensures State() == old(State()).WithV(pf, Fill(old(State()).V(pf), start, pgCnt, true))
    {
      hide BitsOf, Fill, Manager.State;
      ghost var s := State();
      FillNone(s.V(pf), start + pgCnt, true);
      var cnt := pgCnt;
      while cnt > 0
        invariant 0 <= cnt <= pgCnt
        invariant Shape() && State() == s.WithV(pf, Fill(s.V(pf), start + cnt, pgCnt - cnt, true))
      {
        cnt := cnt - 1;
        SetVaddr(pf, start + cnt, true);
        FillDown(s.V(pf), start + cnt, pgCnt - cnt - 1, true);
      }
    }

    /** vaddr_get: the lowest run of free addresses, which are taken, or 0. */
    method VaddrGet(pf: PoolFlag, pgCnt: nat) returns (vaddr: nat, ghost start: nat)
      requires Shape() && Fits(pools, State())
      modifies bits, userVaddr.bits
      ensures Shape()
      ensures vaddr == 0 <==> pgCnt == 0 || forall i: nat :: !ClearRun(old(State()).V(pf), i, pgCnt)
      ensures vaddr == 0 ==> State() == old(State())
      ensures vaddr != 0 ==>
                && vaddr == (FirstPage(pf) + start) * PAGE_SIZE && ClearRun(old(State()).V(pf), start, pgCnt)
                && (forall k: nat :: k < start ==> !ClearRun(old(State()).V(pf), k, pgCnt))
                && State() == old(State()).WithV(pf, Fill(old(State()).V(pf), start, pgCnt, true))
    {
      hide BitsOf, Fill, ClearRun, Fits, Manager.State;
      VaddrBitsOf(pf);
      var bitIdx := Vaddr(pf).Scan(pgCnt);
      VaddrBitsOf(pf);
      if bitIdx == -1 {
        return 0, 0;
      }
      TakeAddresses(pf, bitIdx, pgCnt);
      return (FirstPage(pf) + bitIdx) * PAGE_SIZE, bitIdx;
    }

    /** One round of malloc_page's loop: a frame for the next page, or false if the pool is dry. */
    method MapNext(pf: PoolFlag, vaddr: nat, ghost s: Vm, ghost page: nat, ghost pgCnt: nat, ghost taken: seq<nat>,
                   ghost tables: set<nat>) returns (ok: bool, ghost b: nat, ghost news: set<nat>)
      requires Valid() && Sound(pools, s) && Grown(pools, s, State(), pf, page, pgCnt, taken, tables)
      requires |taken| < pgCnt && vaddr == (page + |taken|) * PAGE_SIZE && page + |taken| < SELF * ENTRIES
      requires CountClear(PoolOf(pools, pf, State().frames)) > 0 ==>
                 HasTable(mem, pd, (page + |taken|) / ENTRIES)
                 || (pf == PF_USER && CountClear(PoolOf(pools, PF_KERNEL, State().frames)) > 0)
      modifies this`mem, bits
      ensures Valid()
      ensures ok <==> CountClear(PoolOf(pools, pf, old(State()).frames)) > 0
      ensures !ok ==> State() == old(State())
      ensures ok ==>
                && Grown(pools, s, State(), pf, page, pgCnt, taken + [b], tables + news)
                && CountClear(PoolOf(pools, pf, State().frames)) == CountClear(PoolOf(pools, pf, old(State()).frames)) - 1
                && (if old(HasTable(mem, pd, (page + |taken|) / ENTRIES)) then news == {} else |news| == 1)
                && (forall k :: 0 <= k < SELF ==>
                      (HasTable(mem, pd, k) <==> k == (page + |taken|) / ENTRIES || old(HasTable(mem, pd, k))))
                && (pf == PF_USER ==> CountClear(PoolOf(pools, PF_KERNEL, State().frames)) ==
                                      CountClear(PoolOf(pools, PF_KERNEL, old(State()).frames)) - |news|)
    {
      hide BitsOf, CountClear, PoolOf, Sound, Grown, Added, Addable, HasTable;
      ghost var t := State();
      SoundFits(pools, t);
      news := {};
      var paddr;
      paddr, b := Palloc(pf);
      if paddr == 0 {
        return false, 0, {};
      }
      ghost var m := State();
      ReadyToAdd(pools, s, t, pf, page, pgCnt, taken, tables, b);
      if pf == PF_USER {
        OtherPool(pools, pf, t.frames, b);
      }
      news := PageTableAdd(vaddr, paddr, b);
      AfterAdd(pools, m, State(), pf, page + |taken|, b, news);
      GrownStep(pools, s, t, State(), pf, page, pgCnt, taken, tables, b, news);
      return true, b, news;
    }

    /** malloc_page. When the pool runs dry midway it gives nothing back. */
    method MallocPage(pf: PoolFlag, pgCnt: nat) returns (vaddr: nat, ghost page: nat, ghost taken: seq<nat>, ghost tables: set<nat>)
      requires Valid()
      requires TableRoom(pools, State(), pf, pgCnt)
      modifies this`mem, bits, userVaddr.bits
      ensures Valid()
      ensures vaddr != 0 <==> pgCnt > 0 && pgCnt <= CountClear(PoolOf(pools, pf, old(State()).frames))
                              && exists i: nat :: ClearRun(old(State()).V(pf), i, pgCnt)
      ensures pgCnt == 0 || (forall i: nat :: !ClearRun(old(State()).V(pf), i, pgCnt)) ==> State() == old(State())
      ensures pgCnt > 0 && (exists i: nat :: ClearRun(old(State()).V(pf), i, pgCnt)) ==>
                && Grown(pools, old(State()), State(), pf, page, pgCnt, taken, tables)
                && (forall k: nat :: k < page - FirstPage(pf) ==> !ClearRun(old(State()).V(pf), k, pgCnt))
                && |taken| == (if vaddr != 0 then pgCnt else CountClear(PoolOf(pools, pf, old(State()).frames)))
      ensures vaddr != 0 ==> vaddr == page * PAGE_SIZE
      ensures AllOpen(State())
    {
      hide AllOpen, BitsOf, CountClear, PoolOf, Sound, Grown, HasTable, TablesReady, ClearRun, Fill, Mapping, Lookup;
      ghost var s := State();
      SoundFits(pools, s);
      page, taken, tables := 0, [], {};
      var start, i := VaddrGet(pf, pgCnt);
      if start == 0 {
        MappedIsOpen(pools, State());
        return 0, page, taken, tables;
      }
      page := FirstPage(pf) + i;
      Starting(pools, s, pf, page, pgCnt);
      StartFunded(pools, s, State(), pf, i, pgCnt);
      var ok;
      ok, taken, tables := MapPages(pf, start, pgCnt, s, page);
      MappedIsOpen(pools, State());
      return if ok then start else 0, page, taken, tables;
    }

    /** malloc_page's loop */
    method MapPages(pf: PoolFlag, start: nat, pgCnt: nat, ghost s: Vm, ghost page: nat)
      returns (ok: bool, ghost taken: seq<nat>, ghost tables: set<nat>)
      requires Valid() && Sound(pools, s) && pgCnt > 0 && start == page * PAGE_SIZE
      requires Grown(pools, s, State(), pf, page, pgCnt, [], {})
      requires State().frames == s.frames
      requires Funded(pools, State(), pf, page, 0, Reach(pools, s, pf, pgCnt), page / ENTRIES)
      modifies this`mem, bits
      ensures Valid() && Grown(pools, s, State(), pf, page, pgCnt, taken, tables)
      ensures ok <==> pgCnt <= CountClear(PoolOf(pools, pf, s.frames))
      ensures |taken| == if ok then pgCnt else CountClear(PoolOf(pools, pf, s.frames))
    {
      hide BitsOf, CountClear, PoolOf, Sound, Grown, HasTable, ClearRun, Fill, Mapping, Lookup, Funded, TablesReady;
      SoundFits(pools, s);
      SoundFits(pools, State());
      taken, tables := [], {};
      ghost var next: nat, reach: nat := page / ENTRIES, Reach(pools, s, pf, pgCnt);
      var vaddr := start;
      var cnt := pgCnt;
      while cnt > 0
        invariant cnt >= 0 && cnt + |taken| == pgCnt && vaddr == start + |taken| * PAGE_SIZE
        invariant Valid() && Grown(pools, s, State(), pf, page, pgCnt, taken, tables)
        invariant CountClear(PoolOf(pools, pf, State().frames)) == CountClear(PoolOf(pools, pf, s.frames)) - |taken|
        invariant |taken| <= reach && Funded(pools, State(), pf, page, |taken|, reach, next)
      {
        ghost var t := State();
        SoundFits(pools, t);
        InHeap(pools, s, t, pf, page, pgCnt, taken, tables);
        if |taken| < reach {
          FundedHas(pools, t, pf, page, |taken|, reach, next);
        }
        var ok', b, news := MapNext(pf, vaddr, s, page, pgCnt, taken, tables);
        if !ok' {
          return false, taken, tables;
        }
        SoundFits(pools, State());
        FundedStep(pools, t, State(), pf, page, |taken|, reach, next, news);
        next := if (page + |taken|) / ENTRIES == next then next + 1 else next;
        cnt := cnt - 1;
        taken, tables := taken + [b], tables + news;
        vaddr := vaddr + PAGE_SIZE;
      }
      return true, taken, tables;
    }

    /** addr_v2p, for an address in a page whose table exists */
    method AddrV2P(vaddr: u32) returns (paddr: nat)
      requires Directory(mem, pd) && PdeIdx(vaddr) < SELF && Lookup(mem, pd, vaddr / PAGE_SIZE).Some?
      ensures paddr == Lookup(mem, pd, vaddr / PAGE_SIZE).value * PAGE_SIZE + vaddr % PAGE_SIZE
    {
      SelfMap(mem, pd, vaddr);
      assert vaddr / PAGE_SIZE / ENTRIES == PdeIdx(vaddr);
      var pte := Load(PtePtr(vaddr));
      paddr := pte / PAGE_SIZE * PAGE_SIZE + vaddr % PAGE_SIZE;
    }

    /** pfree */
    method Pfree(paddr: nat, ghost b: nat)
      requires Shape() && Fits(pools, State()) && b < PoolBits(pools) && paddr == FrameAt(pools, b) * PAGE_SIZE
      modifies bits
      ensures State() == old(State()).(frames := old(State()).frames[b := false])
    {
      hide BitsOf, Manager.State;
      if paddr > pools.userStart {
        SetFrame(PF_USER, (paddr - pools.userStart) / PAGE_SIZE, false);
      } else {
        SetFrame(PF_KERNEL, (paddr - pools.kernelStart) / PAGE_SIZE, false);
      }
    }

    /** page_table_pte_remove */
    method PteRemove(vaddr: u32) returns (ghost x: u32)
      requires Directory(mem, pd) && PdeIdx(vaddr) < SELF && HasTable(mem, pd, PdeIdx(vaddr))
      modifies this`mem
      ensures !Present(x) && mem == Store(old(mem), TableFrame(old(mem), pd, PdeIdx(vaddr)), PteIdx(vaddr), x)
    {
      SelfMap(mem, pd, vaddr);
      var pte := Load(PtePtr(vaddr));
      x := pte / 2 * 2;
      assert !Present(x);
      Put(PtePtr(vaddr), pte / 2 * 2);
    }

    /** vaddr_remove */
    method VaddrRemove(pf: PoolFlag, vaddr: nat, cnt: nat)
      requires Shape() && vaddr / PAGE_SIZE >= FirstPage(pf)
      requires vaddr / PAGE_SIZE - FirstPage(pf) + cnt <= |State().V(pf)|
      modifies bits, userVaddr.bits
      ensures State() == old(State()).WithV(pf, Fill(old(State()).V(pf), vaddr / PAGE_SIZE - FirstPage(pf), cnt, false))
    {
      hide BitsOf, Fill, Manager.State;
      ghost var s := State();
      var start: nat := vaddr / PAGE_SIZE - FirstPage(pf);
      FillNone(s.V(pf), start, false);
      for i := 0 to cnt
        invariant Shape() && State() == s.WithV(pf, Fill(s.V(pf), start, i, false))
      {
        SetVaddr(pf, start + i, false);
        FillUp(s.V(pf), start, i, false);
      }
    }

    /** mfree_page, for pages other than the active directory's */
    method MfreePage(pf: PoolFlag, vaddr: nat, cnt: nat)
      requires Valid() && cnt >= 1 && vaddr % PAGE_SIZE == 0
      requires FirstPage(pf) <= vaddr / PAGE_SIZE
      requires vaddr / PAGE_SIZE + cnt <= FirstPage(pf) + |State().V(pf)|
      requires forall p: nat :: vaddr / PAGE_SIZE <= p < vaddr / PAGE_SIZE + cnt ==>
                 Mapping(State(), p).Some? && Mapping(State(), p) != Some(pd)
      modifies this`mem, bits, userVaddr.bits
      ensures Valid() && Shrunk(pools, old(State()), State(), pf, vaddr / PAGE_SIZE, cnt)
    {
      hide BitsOf, Sound, Freed, Fill, Mapping;
      ghost var s := State();
      SoundFits(pools, s);
      var v := vaddr / PAGE_SIZE;
      FreedNone(pools, s, v);
      for i := 0 to cnt
        invariant Valid() && Freed(pools, s, State(), v, i) && State() == s.(frames := State().frames, mem := State().mem)
      {
        FreedMapping(pools, s, State(), v, i);
        FreeNext(vaddr + i * PAGE_SIZE, s, v, i);
      }
      FreedMapping(pools, s, State(), v, cnt);
      ghost var t := State();
      ghost var rest := Fill(s.V(pf), v - FirstPage(pf), cnt, false);
      assert t.V(pf) == s.V(pf);
      forall i | 0 <= i < |rest| && t.V(pf)[i] && !rest[i]
        ensures Mapping(t, FirstPage(pf) + i) == None
      {
      }
      ReleaseAddresses(pools, t, pf, rest);
      SoundFits(pools, t.WithV(pf, rest));
      VaddrRemove(pf, vaddr, cnt);
      FreedWithV(pools, s, t, State(), v, cnt);
    }

    /** One round of mfree_page's loop. */
    method FreeNext(vaddr: nat, ghost s: Vm, ghost v: nat, ghost i: nat)
      requires Valid() && Fits(pools, s) && Freed(pools, s, State(), v, i) && State() == s.(frames := State().frames, mem := State().mem)
      requires vaddr == (v + i) * PAGE_SIZE && Mapping(State(), v + i).Some? && Mapping(State(), v + i) != Some(pd)
      modifies this`mem, bits
      ensures Valid() && Freed(pools, s, State(), v, i + 1) && State() == s.(frames := State().frames, mem := State().mem)
    {
      hide BitsOf, Sound, Freed, Mapping, Lookup, Store, Tables, SameContents;
      ghost var t := State();
      SoundFits(pools, t);
      MappedPage(pools, t, v + i);
      ghost var b := Mapping(t, v + i).value - FrameAt(pools, 0);
      assert PdeIdx(vaddr) == (v + i) / ENTRIES && PteIdx(vaddr) == (v + i) % ENTRIES;
      var pgPhyAddr := AddrV2P(vaddr);
      assert pgPhyAddr % PAGE_SIZE == 0 && pgPhyAddr >= 0x10_2000;
      Pfree(pgPhyAddr, b);
      ghost var x := PteRemove(vaddr);
      UnmapPage(pools, t, v + i, x);
      FreedStep(pools, s, t, State(), v, i);
    }
  }

  lemma MappedPage(l: Pools, s: Vm, p: nat)
    requires Sound(l, s) && Mapping(s, p).Some?
    ensures p < SELF * ENTRIES && Lookup(s.mem, s.pd, p) == Mapping(s, p) && HasTable(s.mem, s.pd, p / ENTRIES)
    ensures 0 <= Mapping(s, p).value - FrameAt(l, 0) < PoolBits(l)
  {
    assert PageSound(l, s, p);
  }

  lemma FreedNone(l: Pools, s: Vm, v: nat)
    requires Fits(l, s)
    ensures Freed(l, s, s, v, 0)
  {
  }

  lemma FreedMapping(l: Pools, s: Vm, t: Vm, v: nat, n: nat)
    requires Fits(l, s) && Freed(l, s, t, v, n)
    ensures forall p: nat :: Mapping(t, p) == if v <= p < v + n then None else Mapping(s, p)
  {
  }

  lemma FreedWithV(l: Pools, s: Vm, t: Vm, u: Vm, v: nat, n: nat)
    requires Fits(l, s) && Freed(l, s, t, v, n) && Fits(l, u)
    requires u.frames == t.frames && u.mem == t.mem && u.pd == t.pd && |u.kv| == |t.kv| && |u.uv| == |t.uv|
    ensures Freed(l, s, u, v, n)
  {
    assert forall p: nat :: Mapping(u, p) == Mapping(t, p);
  }

  /** How many of cnt pages malloc_page maps before the pool runs dry */
  function Reach(l: Pools, s: Vm, pf: PoolFlag, cnt: nat): nat
    requires Fits(l, s)
  {
    if cnt < CountClear(PoolOf(l, pf, s.frames)) then cnt else CountClear(PoolOf(l, pf, s.frames))
  }

  /** One past the last directory entry over m pages from v on */
  function Above(v: nat, m: nat): nat {
    if m == 0 then v / ENTRIES else (v + m - 1) / ENTRIES + 1
  }

  /** How many of the directory entries lo .. hi - 1 have no page table */
  function Lacking(mem: seq<Frame>, pd: nat, lo: nat, hi: nat): nat
    requires pd < |mem|
    decreases hi - lo
  {
    if lo >= hi || lo >= ENTRIES then 0 else Lacking(mem, pd, lo + 1, hi) + if HasTable(mem, pd, lo) then 0 else 1
  }

  /** The kernel pool has a frame for each page table that is missing over the pages that malloc_page will map; it takes the
      lowest run of free addresses. */
  ghost predicate TableRoom(l: Pools, s: Vm, pf: PoolFlag, cnt: nat) {
    && Fits(l, s)
    && (pf == PF_USER && cnt > 0 ==> forall i: nat :: LowestRun(s.V(pf), i, cnt) ==>
          var v := FirstPage(pf) + i;
          Lacking(s.mem, s.pd, v / ENTRIES, Above(v, Reach(l, s, pf, cnt))) <= CountClear(PoolOf(l, PF_KERNEL, s.frames)))
  }

  ghost predicate LowestRun(bits: seq<bool>, i: nat, cnt: nat) {
    ClearRun(bits, i, cnt) && forall k: nat :: k < i ==> !ClearRun(bits, k, cnt)
  }

  /** That is so if there is a frame for each directory entry over any cnt pages. */
  lemma {:induction false} LackingAtMost(mem: seq<Frame>, pd: nat, lo: nat, hi: nat)
    requires pd < |mem|
    ensures Lacking(mem, pd, lo, hi) <= if lo < hi then hi - lo else 0
    decreases hi - lo
  {
    if lo < hi && lo < ENTRIES {
      LackingAtMost(mem, pd, lo + 1, hi);
    }
  }

  lemma EnoughRoom(l: Pools, s: Vm, pf: PoolFlag, cnt: nat)
    requires Fits(l, s) && CountClear(PoolOf(l, PF_KERNEL, s.frames)) >= cnt / ENTRIES + 2
    ensures TableRoom(l, s, pf, cnt)
  {
    hide CountClear, PoolOf, ClearRun;
    forall i: nat | LowestRun(s.V(pf), i, cnt)
      ensures var v := FirstPage(pf) + i;
              Lacking(s.mem, s.pd, v / ENTRIES, Above(v, Reach(l, s, pf, cnt))) <= CountClear(PoolOf(l, PF_KERNEL, s.frames))
    {
      var v := FirstPage(pf) + i;
      LackingAtMost(s.mem, s.pd, v / ENTRIES, Above(v, Reach(l, s, pf, cnt)));
    }
  }

  lemma {:induction false} LackingSame(mem: seq<Frame>, m: seq<Frame>, pd: nat, lo: nat, hi: nat)
    requires pd < |mem| && pd < |m| && hi <= SELF
    requires forall k :: lo <= k < hi ==> (HasTable(m, pd, k) <==> HasTable(mem, pd, k))
    ensures Lacking(m, pd, lo, hi) == Lacking(mem, pd, lo, hi)
    decreases hi - lo
  {
    if lo < hi {
      LackingSame(mem, m, pd, lo + 1, hi);
    }
  }

  /** Directory entries from page v's up to `next` have tables, the n pages from v on lie under those, and the kernel pool has
      frames for those that lack one from there on. */
  ghost predicate Funded(l: Pools, s: Vm, pf: PoolFlag, v: nat, n: nat, m: nat, next: nat) {
    && Fits(l, s)
    && (pf == PF_USER ==> TablesReady(s.mem, s.pd, v, n, m, next)
                          && Lacking(s.mem, s.pd, next, Above(v, m)) <= CountClear(PoolOf(l, PF_KERNEL, s.frames)))
  }

  lemma StartFunded(l: Pools, s: Vm, t: Vm, pf: PoolFlag, i: nat, cnt: nat)
    requires Sound(l, s) && TableRoom(l, s, pf, cnt) && cnt > 0 && LowestRun(s.V(pf), i, cnt) && Fits(l, t)
    requires t.frames == s.frames && t.mem == s.mem && t.pd == s.pd
    requires pf == PF_USER ==> TablesReady(s.mem, s.pd, FirstPage(pf) + i, 0, cnt, (FirstPage(pf) + i) / ENTRIES)
    ensures Funded(l, t, pf, FirstPage(pf) + i, 0, Reach(l, s, pf, cnt), (FirstPage(pf) + i) / ENTRIES)
  {
    hide CountClear, PoolOf, ClearRun, HasTable;
  }

  lemma FundedHas(l: Pools, s: Vm, pf: PoolFlag, v: nat, n: nat, cnt: nat, next: nat)
    requires Sound(l, s) && Funded(l, s, pf, v, n, cnt, next) && n < cnt
    requires FirstPage(pf) <= v && v + cnt <= FirstPage(pf) + |s.V(pf)|
    ensures HasTable(s.mem, s.pd, (v + n) / ENTRIES) || (pf == PF_USER && CountClear(PoolOf(l, PF_KERNEL, s.frames)) > 0)
  {
    hide CountClear, PoolOf;
  }

  lemma FundedStep(l: Pools, s: Vm, t: Vm, pf: PoolFlag, v: nat, n: nat, cnt: nat, next: nat, news: set<nat>)
    requires Funded(l, s, pf, v, n, cnt, next) && n < cnt && Fits(l, t) && t.pd == s.pd
    requires (v + n) / ENTRIES < ENTRIES
    requires if HasTable(s.mem, s.pd, (v + n) / ENTRIES) then news == {} else |news| == 1
    requires forall k :: 0 <= k < SELF ==>
               (HasTable(t.mem, t.pd, k) <==> k == (v + n) / ENTRIES || HasTable(s.mem, s.pd, k))
    requires pf == PF_USER ==>
               CountClear(PoolOf(l, PF_KERNEL, t.frames)) == CountClear(PoolOf(l, PF_KERNEL, s.frames)) - |news|
    ensures Funded(l, t, pf, v, n + 1, cnt, if (v + n) / ENTRIES == next then next + 1 else next)
  {
    hide CountClear, PoolOf, HasTable;
    if pf == PF_USER {
      var next' := if (v + n) / ENTRIES == next then next + 1 else next;
      LackingSame(s.mem, t.mem, s.pd, next', Above(v, cnt));
      assert HasTable(s.mem, s.pd, (v + n) / ENTRIES) || (v + n) / ENTRIES == next;
    }
  }

  /** Directory entries from page v's up to `next` have tables; the n pages from v on lie under those. */
  ghost predicate TablesReady(mem: seq<Frame>, pd: nat, v: nat, n: nat, cnt: nat, next: nat) {
    && pd < |mem| && v + cnt <= 0xc_0000 && n <= cnt
    && v / ENTRIES <= next <= (v + cnt) / ENTRIES + 1 && (v + n) / ENTRIES <= next
    && forall k :: v / ENTRIES <= k < next && k < SELF ==> HasTable(mem, pd, k)
  }

  lemma InHeap(l: Pools, s: Vm, t: Vm, pf: PoolFlag, v: nat, cnt: nat, taken: seq<nat>, tables: set<nat>)
    requires Fits(l, s) && Grown(l, s, t, pf, v, cnt, taken, tables)
    ensures FirstPage(pf) <= v && v + cnt <= FirstPage(pf) + |s.V(pf)| && v + cnt <= SELF * ENTRIES
    ensures |t.V(pf)| == |s.V(pf)| && t.pd == s.pd
  {
  }

  lemma OtherPool(l: Pools, pf: PoolFlag, f: seq<bool>, b: nat)
    requires |f| == PoolBits(l) && InPool(l, pf, b) && pf == PF_USER
    ensures PoolOf(l, PF_KERNEL, f[b := true]) == PoolOf(l, PF_KERNEL, f)
  {
  }

  lemma AfterAdd(l: Pools, s: Vm, t: Vm, pf: PoolFlag, p: nat, b: nat, news: set<nat>)
    requires Fits(l, s) && Added(l, s, t, p, b, news) && (pf == PF_KERNEL ==> news == {})
    ensures PoolOf(l, pf, t.frames) == PoolOf(l, pf, s.frames)
  {
    SamePool(l, pf, t.frames, s.frames);
  }

  lemma Starting(l: Pools, s: Vm, pf: PoolFlag, v: nat, cnt: nat)
    requires Sound(l, s) && FirstPage(pf) <= v && ClearRun(s.V(pf), v - FirstPage(pf), cnt)
    ensures var t := s.WithV(pf, Fill(s.V(pf), v - FirstPage(pf), cnt, true));
            Sound(l, t) && Grown(l, s, t, pf, v, cnt, [], {})
    ensures pf == PF_USER ==> TablesReady(s.mem, s.pd, v, 0, cnt, v / ENTRIES)
  {
    Reserve(l, s, s.WithV(pf, Fill(s.V(pf), v - FirstPage(pf), cnt, true)));
  }

  lemma FreedStep(l: Pools, s: Vm, t: Vm, u: Vm, v: nat, n: nat)
    requires Fits(l, s) && Freed(l, s, t, v, n)
    requires Mapping(t, v + n).Some? && 0 <= Mapping(t, v + n).value - FrameAt(l, 0) < PoolBits(l)
    requires u == t.(mem := u.mem, frames := t.frames[Mapping(t, v + n).value - FrameAt(l, 0) := false])
    requires |u.mem| == |t.mem| && SameContents(t, u) && Tables(u) == Tables(t)
    requires Mapping(u, v + n) == None && forall p: nat :: p != v + n ==> Mapping(u, p) == Mapping(t, p)
    ensures Freed(l, s, u, v, n + 1)
  {
    hide Mapping, Tables;
    forall b | 0 <= b < PoolBits(l)
      ensures u.frames[b] <==> s.frames[b] && forall p | v <= p < v + n + 1 :: Mapping(s, p) != Some(FrameAt(l, b))
    {
      assert Mapping(t, v + n) == Mapping(s, v + n);
      assert u.frames[b] <==> t.frames[b] && Mapping(s, v + n) != Some(FrameAt(l, b));
    }
  }

  lemma NoneClear(bits: seq<bool>)
    requires forall i: nat :: !ClearRun(bits, i, 1)
    ensures CountClear(bits) == 0
  {
    if CountClear(bits) > 0 {
      var i := CountClearPositive(bits);
      assert ClearRun(bits, i, 1);
    }
  }

  lemma FirstClear(l: Pools, pf: PoolFlag, frames: seq<bool>, i: nat)
    requires |frames| == PoolBits(l) && i < |PoolOf(l, pf, frames)|
    requires ClearRun(PoolOf(l, pf, frames), i, 1)
    requires forall k: nat :: k < i ==> !ClearRun(PoolOf(l, pf, frames), k, 1)
    ensures var b := i + if pf == PF_KERNEL then 0 else 8 * l.kbmLength;
            && InPool(l, pf, b) && !frames[b] && (forall c :: 0 <= c < b && InPool(l, pf, c) ==> frames[c])
            && CountClear(PoolOf(l, pf, frames)) > 0
            && CountClear(PoolOf(l, pf, frames[b := true])) == CountClear(PoolOf(l, pf, frames)) - 1
  {
    var off := if pf == PF_KERNEL then 0 else 8 * l.kbmLength;
    var own := PoolOf(l, pf, frames);
    CountClearUpdate(own, i, true);
    CountClearZero(own, i);
    assert PoolOf(l, pf, frames[i + off := true]) == own[i := true];
    forall c | 0 <= c < i + off && InPool(l, pf, c)
      ensures frames[c]
    {
      assert !ClearRun(own, c - off, 1);
    }
  }
}
