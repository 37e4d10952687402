/** Who has taken which pages: the books of all that use a memory manager, heaps and others. */
module Books {
  import opened Words
  import opened Paging
  import opened Memory
  import opened Bitmaps

  function Span(p: nat, n: nat): (s: set<nat>)
    ensures forall q: nat :: q in s <==> p <= q < p + n
  {
    if n == 0 then {} else Span(p, n - 1) + {p + n - 1}
  }

  /** Compared with the state `base`, just these pages of the two heaps have been taken and mapped, each to a frame that was
      free; and `tables` are just the bits of the frames that have become page tables below the kernel's half. */
  ghost predicate Own(l: Pools, base: Vm, s: Vm, pages: set<nat>, tables: set<nat>) {
    && Fits(l, base) && Fits(l, s) && |s.kv| == |base.kv| && |s.uv| == |base.uv| && s.pd == base.pd
    && OwnPages(l, base, s, pages, tables) && OwnAddresses(base, s, pages)
    && (forall p: nat :: p !in pages ==> Mapping(s, p) == Mapping(base, p))
    && OwnFrames(l, base, s, pages, tables) && MoreTables(l, Tables(base), Tables(s), tables)
  }

  /** An address is taken if it was in `base` or belongs to one of the pages. */
  ghost predicate OwnAddresses(base: Vm, s: Vm, pages: set<nat>)
    requires |s.kv| == |base.kv| && |s.uv| == |base.uv|
  {
    forall pf, i :: 0 <= i < |base.V(pf)| ==> (s.V(pf)[i] <==> base.V(pf)[i] || FirstPage(pf) + i in pages)
  }

  ghost predicate OwnPages(l: Pools, base: Vm, s: Vm, pages: set<nat>, tables: set<nat>)
    requires Fits(l, base)
  {
    forall p :: p in pages ==> Heap(base, p) && PageOwned(l, base, s, p, tables)
  }

  ghost predicate PageOwned(l: Pools, base: Vm, s: Vm, p: nat, tables: set<nat>)
    requires Fits(l, base) && Heap(base, p)
  {
    && !base.V(PfOf(p))[p - FirstPage(PfOf(p))] && Mapping(base, p) == None && Mapping(s, p).Some?
    && var b := Mapping(s, p).value - FrameAt(l, 0);
       0 <= b < PoolBits(l) && !base.frames[b] && b !in tables
  }

  /** Some page of the set is mapped to the frame of bit b. */
  ghost predicate Backs(l: Pools, s: Vm, pages: set<nat>, b: nat) {
    exists p :: p in pages && Mapping(s, p) == Some(FrameAt(l, b))
  }

  ghost predicate OwnFrames(l: Pools, base: Vm, s: Vm, pages: set<nat>, tables: set<nat>)
    requires |base.frames| == |s.frames| == PoolBits(l)
  {
    && (forall b: nat :: b < PoolBits(l) ==> (s.frames[b] <==> base.frames[b] || b in tables || Backs(l, s, pages, b)))
    && (forall b :: b in tables ==> InPool(l, PF_KERNEL, b) && !base.frames[b])
  }

  lemma OwnGrows(l: Pools, base: Vm, s: Vm, t: Vm, pf: PoolFlag, pages: set<nat>, tables: set<nat>, v: nat, cnt: nat,
                 taken: seq<nat>, news: set<nat>)
    requires Own(l, base, s, pages, tables) && Sound(l, s)
    requires Grown(l, s, t, pf, v, cnt, taken, news) && |taken| == cnt
    ensures Own(l, base, t, pages + Span(v, cnt), tables + news)
  {
    hide Mapping, SameContents, MoreTables, Tables, Sound, OwnPages, OwnFrames, OwnAddresses, ClearRun, Fill;
    PagesOfFreeAddresses(l, s, pf, v, cnt);
    OldPagesOwned(l, base, s, t, pf, pages, tables, v, cnt, taken, news);
    NewPagesOwned(l, base, s, t, pf, pages, tables, v, cnt, taken, news);
    OwnGrowsAddresses(l, base, s, t, pf, pages, tables, v, cnt, taken, news);
    BothOwned(l, base, t, pages, Span(v, cnt), tables + news);
    OwnGrowsFrames(l, base, s, t, pf, pages, tables, v, cnt, taken, news);
    MoreTablesTwice(l, Tables(base), Tables(s), Tables(t), tables, news);
  }

  lemma OwnGrowsAddresses(l: Pools, base: Vm, s: Vm, t: Vm, pf: PoolFlag, pages: set<nat>, tables: set<nat>, v: nat, cnt: nat,
                          taken: seq<nat>, news: set<nat>)
    requires Own(l, base, s, pages, tables) && Grown(l, s, t, pf, v, cnt, taken, news)
    ensures |t.kv| == |base.kv| && |t.uv| == |base.uv| && OwnAddresses(base, t, pages + Span(v, cnt))
  {
    hide Mapping, SameContents, MoreTables, Tables, OwnPages, OwnFrames;
    forall q, i | 0 <= i < |base.V(q)|
      ensures t.V(q)[i] <==> base.V(q)[i] || FirstPage(q) + i in pages + Span(v, cnt)
    {
      assert s.V(q)[i] <==> base.V(q)[i] || FirstPage(q) + i in pages;
      HeapsApart(l, base, q, i, pf);
    }
  }

  /** The kernel's heap lies above every process's. */
  lemma HeapsApart(l: Pools, s: Vm, q: PoolFlag, i: nat, pf: PoolFlag)
    requires Fits(l, s) && i < |s.V(q)|
    ensures PfOf(FirstPage(q) + i) == q && Heap(s, FirstPage(q) + i)
    ensures q != pf ==> !(FirstPage(pf) <= FirstPage(q) + i < FirstPage(pf) + |s.V(pf)|)
  {
  }

  lemma BothOwned(l: Pools, base: Vm, s: Vm, pages: set<nat>, more: set<nat>, tables: set<nat>)
    requires Fits(l, base) && OwnPages(l, base, s, pages, tables) && OwnPages(l, base, s, more, tables)
    ensures OwnPages(l, base, s, pages + more, tables)
  {
    hide PageOwned;
  }

  lemma BackedFrames(l: Pools, base: Vm, s: Vm, pages: set<nat>, tables: set<nat>)
    requires |base.frames| == |s.frames| == PoolBits(l) && OwnFrames(l, base, s, pages, tables)
    ensures forall b: nat :: b < PoolBits(l) && (b in tables || Backs(l, s, pages, b)) ==> s.frames[b]
  {
    hide Backs;
  }

  lemma OldPagesOwned(l: Pools, base: Vm, s: Vm, t: Vm, pf: PoolFlag, pages: set<nat>, tables: set<nat>, v: nat, cnt: nat,
                      taken: seq<nat>, news: set<nat>)
    requires Own(l, base, s, pages, tables) && Grown(l, s, t, pf, v, cnt, taken, news) && |taken| == cnt
    ensures forall p :: p in pages ==> !(v <= p < v + cnt) && Mapping(t, p) == Mapping(s, p)
    ensures OwnPages(l, base, t, pages, tables + news)
  {
    hide Mapping, SameContents, MoreTables, Tables, OwnFrames, PageOwned, Grown;
    BackedFrames(l, base, s, pages, tables);
    forall p | p in pages
      ensures !(v <= p < v + cnt) && Mapping(t, p) == Mapping(s, p) && PageOwned(l, base, t, p, tables + news)
    {
      OwnedFrame(l, base, s, pages, tables, p);
      var b: nat := Mapping(s, p).value - FrameAt(l, 0);
      assert Mapping(s, p) == Some(FrameAt(l, b));
      assert Backs(l, s, pages, b);
      assert s.frames[b] && s.V(PfOf(p))[p - FirstPage(PfOf(p))];
      OldPageOwned(l, base, s, t, pf, tables, v, cnt, taken, news, p, b);
    }
  }

  lemma OldPageOwned(l: Pools, base: Vm, s: Vm, t: Vm, pf: PoolFlag, tables: set<nat>, v: nat, cnt: nat, taken: seq<nat>,
                     news: set<nat>, p: nat, b: nat)
    requires Fits(l, base) && Fits(l, s) && Grown(l, s, t, pf, v, cnt, taken, news) && |taken| == cnt
    requires |s.kv| == |base.kv| && |s.uv| == |base.uv| && Heap(base, p) && s.V(PfOf(p))[p - FirstPage(PfOf(p))]
    requires PageOwned(l, base, s, p, tables) && b < PoolBits(l) && Mapping(s, p) == Some(FrameAt(l, b)) && s.frames[b]
    ensures !(v <= p < v + cnt) && Mapping(t, p) == Mapping(s, p) && PageOwned(l, base, t, p, tables + news)
  {
    hide Mapping, SameContents, MoreTables, Tables, Fill;
  }

  lemma NewPagesOwned(l: Pools, base: Vm, s: Vm, t: Vm, pf: PoolFlag, pages: set<nat>, tables: set<nat>, v: nat, cnt: nat,
                      taken: seq<nat>, news: set<nat>)
    requires Own(l, base, s, pages, tables) && Grown(l, s, t, pf, v, cnt, taken, news) && |taken| == cnt
    requires forall p: nat :: v <= p < v + cnt ==> Mapping(s, p) == None
    ensures OwnPages(l, base, t, Span(v, cnt), tables + news)
  {
    hide Mapping, SameContents, MoreTables, Tables, OwnPages;
    forall p | p in Span(v, cnt)
      ensures Heap(base, p) && PageOwned(l, base, t, p, tables + news)
    {
      HeapsApart(l, base, pf, p - FirstPage(pf), pf);
      assert Mapping(t, v + (p - v)) == Some(FrameAt(l, taken[p - v]));
      assert !s.V(pf)[p - FirstPage(pf)];
      var b := taken[p - v];
      assert b in taken && !s.frames[b];
    }
    OwnPagesOf(l, base, t, Span(v, cnt), tables + news);
  }

  lemma OwnPagesOf(l: Pools, base: Vm, s: Vm, pages: set<nat>, tables: set<nat>)
    requires Fits(l, base)
    requires forall p :: p in pages ==> Heap(base, p) && PageOwned(l, base, s, p, tables)
    ensures OwnPages(l, base, s, pages, tables)
  {
    hide PageOwned;
  }

  lemma OwnGrowsFrames(l: Pools, base: Vm, s: Vm, t: Vm, pf: PoolFlag, pages: set<nat>, tables: set<nat>, v: nat, cnt: nat,
                       taken: seq<nat>, news: set<nat>)
    requires Own(l, base, s, pages, tables) && Grown(l, s, t, pf, v, cnt, taken, news) && |taken| == cnt
    requires forall p :: p in pages ==> !(v <= p < v + cnt) && Mapping(t, p) == Mapping(s, p)
    ensures OwnFrames(l, base, t, pages + Span(v, cnt), tables + news)
  {
    hide Mapping, SameContents, MoreTables, Tables, OwnPages;
    forall b: nat | b < PoolBits(l)
      ensures Backs(l, t, pages + Span(v, cnt), b) <==> Backs(l, s, pages, b) || b in taken
    {
      if b in taken {
        var k :| 0 <= k < |taken| && taken[k] == b;
        assert v + k in pages + Span(v, cnt) && Mapping(t, v + k) == Some(FrameAt(l, b));
      }
      if p :| p in pages && Mapping(s, p) == Some(FrameAt(l, b)) {
        assert p in pages + Span(v, cnt) && Mapping(t, p) == Some(FrameAt(l, b));
      }
      if p :| p in pages + Span(v, cnt) && Mapping(t, p) == Some(FrameAt(l, b)) {
        if p in pages {
          assert Mapping(s, p) == Some(FrameAt(l, b));
        } else {
          assert Mapping(t, v + (p - v)) == Some(FrameAt(l, taken[p - v])) && b == taken[p - v];
        }
      }
    }
    hide Backs;
  }

  lemma OwnShrinks(l: Pools, base: Vm, s: Vm, t: Vm, pf: PoolFlag, pages: set<nat>, tables: set<nat>, v: nat, cnt: nat)
    requires Own(l, base, s, pages, tables) && Sound(l, s) && Span(v, cnt) <= pages
    requires Shrunk(l, s, t, pf, v, cnt)
    ensures Own(l, base, t, pages - Span(v, cnt), tables)
  {
    hide Mapping, SameContents, MoreTables, Tables, Sound, OwnPages, OwnFrames, OwnAddresses, PageOwned, Fill;
    LeftPagesOwned(l, base, s, t, pages, tables, v, cnt);
    OwnShrinksAddresses(l, base, s, t, pf, pages, tables, v, cnt);
    forall p: nat | p !in pages - Span(v, cnt)
      ensures Mapping(t, p) == Mapping(base, p)
    {
      if p in Span(v, cnt) {
        OwnedFrame(l, base, s, pages, tables, p);
      } else {
        assert Mapping(s, p) == Mapping(base, p);
      }
    }
    OwnShrinksFrames(l, base, s, t, pf, pages, tables, v, cnt);
  }

  lemma OwnShrinksAddresses(l: Pools, base: Vm, s: Vm, t: Vm, pf: PoolFlag, pages: set<nat>, tables: set<nat>, v: nat, cnt: nat)
    requires Own(l, base, s, pages, tables) && Span(v, cnt) <= pages && Shrunk(l, s, t, pf, v, cnt)
    ensures |t.kv| == |base.kv| && |t.uv| == |base.uv| && OwnAddresses(base, t, pages - Span(v, cnt))
  {
    hide Mapping, SameContents, MoreTables, Tables, OwnPages, OwnFrames, Freed;
    forall q, i | 0 <= i < |base.V(q)|
      ensures t.V(q)[i] <==> base.V(q)[i] || FirstPage(q) + i in pages - Span(v, cnt)
    {
      assert s.V(q)[i] <==> base.V(q)[i] || FirstPage(q) + i in pages;
      HeapsApart(l, base, q, i, pf);
      if FirstPage(q) + i in Span(v, cnt) {
        OwnedFrame(l, base, s, pages, tables, FirstPage(q) + i);
      }
    }
  }

  lemma LeftPagesOwned(l: Pools, base: Vm, s: Vm, t: Vm, pages: set<nat>, tables: set<nat>, v: nat, cnt: nat)
    requires Fits(l, base) && OwnPages(l, base, s, pages, tables)
    requires forall p: nat :: Mapping(t, p) == if v <= p < v + cnt then None else Mapping(s, p)
    ensures OwnPages(l, base, t, pages - Span(v, cnt), tables)
  {
    hide Mapping;
    forall p | p in pages - Span(v, cnt)
      ensures Heap(base, p) && PageOwned(l, base, t, p, tables)
    {
      assert PageOwned(l, base, s, p, tables);
    }
  }

  lemma OwnShrinksFrames(l: Pools, base: Vm, s: Vm, t: Vm, pf: PoolFlag, pages: set<nat>, tables: set<nat>, v: nat, cnt: nat)
    requires Own(l, base, s, pages, tables) && Sound(l, s) && Span(v, cnt) <= pages && Shrunk(l, s, t, pf, v, cnt)
    ensures OwnFrames(l, base, t, pages - Span(v, cnt), tables)
  {
    hide Mapping, SameContents, MoreTables, Tables, Sound, OwnPages, Fill;
    forall b: nat | b < PoolBits(l)
      ensures t.frames[b] <==> base.frames[b] || b in tables || Backs(l, t, pages - Span(v, cnt), b)
    {
      if Backs(l, s, Span(v, cnt), b) {
        var p :| p in Span(v, cnt) && Mapping(s, p) == Some(FrameAt(l, b));
        OwnedFrame(l, base, s, pages, tables, p);
        NobodyElse(l, s, t, p, pages - Span(v, cnt), v, cnt);
      } else {
        if p :| p in pages && Mapping(s, p) == Some(FrameAt(l, b)) {
          assert p in pages - Span(v, cnt) && Mapping(t, p) == Some(FrameAt(l, b));
        }
        if p :| p in pages - Span(v, cnt) && Mapping(t, p) == Some(FrameAt(l, b)) {
          assert p in pages && Mapping(s, p) == Some(FrameAt(l, b));
        }
        forall p: nat | v <= p < v + cnt
          ensures Mapping(s, p) != Some(FrameAt(l, b))
        {
          assert p in Span(v, cnt);
        }
      }
    }
  }

  lemma OwnedFrame(l: Pools, base: Vm, s: Vm, pages: set<nat>, tables: set<nat>, p: nat)
    requires Fits(l, base) && OwnPages(l, base, s, pages, tables) && p in pages
    ensures Mapping(s, p).Some? && Mapping(base, p) == None
    ensures Heap(base, p) && !base.V(PfOf(p))[p - FirstPage(PfOf(p))]
    ensures var b := Mapping(s, p).value - FrameAt(l, 0); 0 <= b < PoolBits(l) && !base.frames[b] && b !in tables
  {
    assert PageOwned(l, base, s, p, tables);
  }

  lemma NobodyElse(l: Pools, s: Vm, t: Vm, p: nat, rest: set<nat>, v: nat, cnt: nat)
    requires Sound(l, s) && Fits(l, s) && Mapping(s, p).Some? && v <= p < v + cnt
    requires forall q: nat :: Mapping(t, q) == if v <= q < v + cnt then None else Mapping(s, q)
    ensures forall q :: q in rest ==> Mapping(t, q) != Mapping(s, p)
  {
    hide Mapping;
  }

  /** The bits of `tables` are those of the frames that hold a page table which `base` lacks, and no others. */
  lemma TablesAre(l: Pools, base: Vm, s: Vm, pages: set<nat>, tables: set<nat>, b: nat)
    requires Own(l, base, s, pages, tables)
    ensures b in tables <==> TableAt(Tables(base), Tables(s), FrameAt(l, b))
    ensures b in tables ==> InPool(l, PF_KERNEL, b)
    ensures tables == {} <==> Tables(s) == Tables(base)
  {
    hide OwnPages, OwnAddresses, Mapping, Tables, Backs, MoreTables, TableAt;
    NewsAre(l, Tables(base), Tables(s), tables, b);
  }

  lemma NewsAre(l: Pools, m: map<nat, nat>, m': map<nat, nat>, news: set<nat>, b: nat)
    requires MoreTables(l, m, m', news)
    ensures b in news <==> TableAt(m, m', FrameAt(l, b))
    ensures news == {} <==> m' == m
  {
    hide TableAt;
    if TableAt(m, m', FrameAt(l, b)) {
      var k := TableEntry(m, m', FrameAt(l, b));
      assert m'[k] - FrameAt(l, 0) == b;
    }
    if news == {} {
      TablesSame(l, m, m');
    } else {
      var c :| c in news;
      var k := TableEntry(m, m', FrameAt(l, c));
    }
  }

  lemma TableEntry(m: map<nat, nat>, m': map<nat, nat>, f: nat) returns (k: nat)
    requires TableAt(m, m', f)
    ensures k in m' && k !in m && m'[k] == f
  {
    k :| k in m' && k !in m && m'[k] == f;
  }

  /** When no page is left the addresses and the mappings are those of `base`. So are the frames of the user pool, and those of
      the kernel pool that hold no page table which `base` lacks. */
  lemma OwnNone(l: Pools, base: Vm, s: Vm, tables: set<nat>)
    requires Own(l, base, s, {}, tables)
    ensures |s.frames| == |base.frames| == PoolBits(l)
    ensures s.kv == base.kv && s.uv == base.uv && forall p: nat :: Mapping(s, p) == Mapping(base, p)
    ensures forall b: nat :: b < PoolBits(l) ==> (s.frames[b] <==> base.frames[b] || TableAt(Tables(base), Tables(s), FrameAt(l, b)))
    ensures PoolOf(l, PF_USER, s.frames) == PoolOf(l, PF_USER, base.frames)
    ensures Tables(s) == Tables(base) ==> s.frames == base.frames
  {
    hide Mapping, Tables, TableAt;
    var none: set<nat> := {};
    forall b: nat | b < PoolBits(l)
      ensures s.frames[b] <==> base.frames[b] || TableAt(Tables(base), Tables(s), FrameAt(l, b))
      ensures InPool(l, PF_USER, b) ==> s.frames[b] == base.frames[b]
    {
      TablesAre(l, base, s, none, tables, b);
    }
    SamePool(l, PF_USER, s.frames, base.frames);
    TablesAre(l, base, s, none, tables, 0);
    forall i | 0 <= i < |base.kv|
      ensures s.kv[i] == base.kv[i]
    {
      assert s.V(PF_KERNEL)[i] <==> base.V(PF_KERNEL)[i] || FirstPage(PF_KERNEL) + i in none;
    }
    forall i | 0 <= i < |base.uv|
      ensures s.uv[i] == base.uv[i]
    {
      assert s.V(PF_USER)[i] <==> base.V(PF_USER)[i] || FirstPage(PF_USER) + i in none;
    }
  }

  /** What is mapped outside some pages stays as it is. */
  ghost predicate Spared(s: Vm, t: Vm, pages: set<nat>) {
    && t.pd == s.pd && |t.kv| == |s.kv| && |t.uv| == |s.uv|
    && forall p: nat :: p !in pages && Mapping(s, p).Some? ==> Mapping(t, p) == Mapping(s, p)
  }

  lemma GrownSpares(l: Pools, s: Vm, t: Vm, pf: PoolFlag, v: nat, cnt: nat, taken: seq<nat>, tables: set<nat>)
    requires Sound(l, s) && Grown(l, s, t, pf, v, cnt, taken, tables)
    ensures Spared(s, t, {}) && forall p :: p in Span(v, cnt) ==> Mapping(s, p) == None
  {
    hide Mapping, SameContents, MoreTables, Tables;
    PagesOfFreeAddresses(l, s, pf, v, cnt);
  }

  lemma ShrunkSpares(l: Pools, s: Vm, t: Vm, pf: PoolFlag, v: nat, cnt: nat)
    requires Fits(l, s) && Shrunk(l, s, t, pf, v, cnt)
    ensures Spared(s, t, Span(v, cnt))
  {
    hide Mapping, SameContents, MoreTables, Tables;
  }

  /** malloc_page can map n pages: there are n addresses in a row and n frames. */
  ghost predicate CanMap(l: Pools, s: Vm, pf: PoolFlag, n: nat)
    requires Fits(l, s)
  {
    n <= CountClear(PoolOf(l, pf, s.frames)) && exists i: nat :: ClearRun(s.V(pf), i, n)
  }

  /** A memory manager and what all its users have taken since the books were opened: the pages that are out, the bits of the
      frames that have become page tables, and whether no malloc_page has failed midway. */
  class Account {
    const mm: Manager
    ghost const base: Vm
    ghost var pages: set<nat>
    ghost var tables: set<nat>
    ghost var intact: bool

    constructor (mm: Manager)
      requires mm.Valid()
      ensures Valid() && this.mm == mm && base == mm.State() && pages == {} && tables == {} && intact
    {
      this.mm, base, pages, tables, intact := mm, mm.State(), {}, {}, true;
    }

    ghost predicate Valid()
      reads this, mm, mm.bits, mm.userVaddr.bits
    {
      mm.Valid() && (intact ==> Own(mm.pools, base, mm.State(), pages, tables))
    }

    /** malloc_page, entered in the books. What others have is spared. */
    method TakePages(pf: PoolFlag, n: nat) returns (vaddr: nat, ghost page: nat)
      requires Valid() && n > 0 && TableRoom(mm.pools, mm.State(), pf, n)
      modifies mm`mem, mm.bits, mm.userVaddr.bits, this
      ensures Valid() && Spared(old(mm.State()), mm.State(), {})
      ensures vaddr != 0 <==> CanMap(mm.pools, old(mm.State()), pf, n)
      ensures vaddr != 0 ==>
                && vaddr == page * PAGE_SIZE && FirstPage(pf) <= page && page + n <= FirstPage(pf) + |mm.State().V(pf)|
                && (forall p :: p in Span(page, n) ==> Mapping(old(mm.State()), p) == None
                                                       && Mapping(mm.State(), p).Some? && Mapping(mm.State(), p) != Some(mm.pd))
                && pages == old(pages) + Span(page, n) && intact == old(intact) && old(tables) <= tables
                && (pf == PF_KERNEL ==> tables == old(tables))
      ensures forall b :: b in tables - old(tables) ==> InPool(mm.pools, PF_KERNEL, b) && !old(mm.State().frames[b])
      ensures vaddr == 0 ==>
                && pages == old(pages) && tables == old(tables) && intact == (old(intact) && mm.State() == old(mm.State()))
    {
      hide Sound, Own, Grown, CountClear, PoolOf, BitsOf, ClearRun, Mapping, Spared;
      ghost var s := mm.State();
      SoundFits(mm.pools, s);
      ghost var taken, news;
      vaddr, page, taken, news := mm.MallocPage(pf, n);
      SparesSelf(s);
      if vaddr == 0 {
        intact := intact && mm.State() == s;
        if exists i: nat :: ClearRun(s.V(pf), i, n) {
          GrownSpares(mm.pools, s, mm.State(), pf, page, n, taken, news);
        }
      } else {
        GrownSpares(mm.pools, s, mm.State(), pf, page, n, taken, news);
        GrownMaps(mm.pools, s, mm.State(), pf, page, n, taken, news);
        GrownTables(mm.pools, s, mm.State(), pf, page, n, taken, news);
        if intact {
          OwnGrows(mm.pools, base, s, mm.State(), pf, pages, tables, page, n, taken, news);
        }
        pages, tables := pages + Span(page, n), tables + news;
      }
    }

    /** mfree_page, of pages that are out */
    method GivePages(pf: PoolFlag, page: nat, n: nat)
      requires Valid() && n > 0 && FirstPage(pf) <= page && page + n <= FirstPage(pf) + |mm.State().V(pf)|
      requires Span(page, n) <= pages
      requires forall p :: p in Span(page, n) ==> Mapping(mm.State(), p).Some? && Mapping(mm.State(), p) != Some(mm.pd)
      modifies mm`mem, mm.bits, mm.userVaddr.bits, this`pages
      ensures Valid() && Spared(old(mm.State()), mm.State(), Span(page, n)) && pages == old(pages) - Span(page, n)
    {
      hide Sound, Own, Shrunk, BitsOf, Mapping, Spared;
      ghost var s := mm.State();
      SoundFits(mm.pools, s);
      assert page * PAGE_SIZE / PAGE_SIZE == page;
      mm.MfreePage(pf, page * PAGE_SIZE, n);
      ShrunkSpares(mm.pools, s, mm.State(), pf, page, n);
      if intact {
        OwnShrinks(mm.pools, base, s, mm.State(), pf, pages, tables, page, n);
      }
      pages := pages - Span(page, n);
    }
  }

  lemma SparesSelf(s: Vm)
    ensures Spared(s, s, {})
  {
  }

  lemma GrownTables(l: Pools, s: Vm, t: Vm, pf: PoolFlag, v: nat, cnt: nat, taken: seq<nat>, tables: set<nat>)
    requires Fits(l, s) && Grown(l, s, t, pf, v, cnt, taken, tables)
    ensures pf == PF_KERNEL ==> tables == {}
    ensures forall b :: b in tables ==> InPool(l, PF_KERNEL, b) && !s.frames[b]
  {
    hide Mapping, SameContents, MoreTables, Tables;
  }

  lemma GrownMaps(l: Pools, s: Vm, t: Vm, pf: PoolFlag, v: nat, cnt: nat, taken: seq<nat>, tables: set<nat>)
    requires Sound(l, s) && Grown(l, s, t, pf, v, cnt, taken, tables) && |taken| == cnt
    ensures FirstPage(pf) <= v && v + cnt <= FirstPage(pf) + |t.V(pf)|
    ensures forall p :: p in Span(v, cnt) ==> Mapping(t, p).Some? && Mapping(t, p) != Some(t.pd)
  {
    hide Lookup, SameContents, Mapping, MoreTables, Tables;
    forall q | q in Span(v, cnt)
      ensures Mapping(t, q).Some? && Mapping(t, q) != Some(t.pd)
    {
      assert Mapping(t, v + (q - v)) == Some(FrameAt(l, taken[q - v]));
      var b := taken[q - v];
      assert b in taken && !s.frames[b] && IsTable(s.mem, s.pd, s.pd);
    }
  }
}
