/** kernel/memory.c's sys_malloc and sys_free: arenas of equal blocks in single pages, and large allocations of whole pages. */
module Arenas {
  import opened Words
  import opened Paging
  import opened Memory
  import opened Books
  import opened Bitmaps

  const DESC_CNT: nat := 7
  /** sizeof(struct arena) */
  const HEADER: nat := 12

  /** block_desc_init: 16, 32, 64, ..., 1024 */
  function BlockSize(k: nat): (n: nat)
    requires k < DESC_CNT
    ensures 16 <= n <= 1024
  {
    if k == 0 then 16 else if k == 1 then 32 else if k == 2 then 64 else if k == 3 then 128
    else if k == 4 then 256 else if k == 5 then 512 else 1024
  }

  function PerArena(k: nat): (n: nat)
    requires k < DESC_CNT
    ensures n >= 3 && HEADER + BlockSize(k) * n <= PAGE_SIZE
  {
    (PAGE_SIZE - HEADER) / BlockSize(k)
  }

  /** No more blocks fit behind the header. */
  lemma PerArenaIsMost(k: nat)
    requires k < DESC_CNT
    ensures PAGE_SIZE < HEADER + BlockSize(k) * (PerArena(k) + 1)
  {
    var n := BlockSize(k);
    assert n * ((PAGE_SIZE - HEADER) / n + 1) > PAGE_SIZE - HEADER;
  }

  /** arena2block, for the arena in page p */
  function Block(p: nat, k: nat, i: nat): nat
    requires k < DESC_CNT
  {
    p * PAGE_SIZE + HEADER + BlockSize(k) * i
  }

  /** block2arena, as a page number */
  function ArenaOf(b: nat): nat {
    b / PAGE_SIZE
  }

  /** Which block of its arena an address is. */
  function IdxOf(b: nat, k: nat): int
    requires k < DESC_CNT
  {
    (b % PAGE_SIZE - HEADER) / BlockSize(k)
  }

  predicate IsBlock(b: nat, k: nat)
    requires k < DESC_CNT
  {
    0 <= IdxOf(b, k) < PerArena(k) && b == Block(ArenaOf(b), k, IdxOf(b, k))
  }

  lemma InPage(p: nat, x: nat)
    requires HEADER + x < PAGE_SIZE
    ensures (p * PAGE_SIZE + HEADER + x) / PAGE_SIZE == p && (p * PAGE_SIZE + HEADER + x) % PAGE_SIZE == HEADER + x
  {
  }

  /** block2arena inverts arena2block for every block of an arena, and every block lies behind the header in its page. */
  lemma BlockInverse(p: nat, k: nat, i: nat)
    requires k < DESC_CNT && i < PerArena(k)
    ensures ArenaOf(Block(p, k, i)) == p && IdxOf(Block(p, k, i), k) == i && IsBlock(Block(p, k, i), k)
    ensures p * PAGE_SIZE + HEADER <= Block(p, k, i) && Block(p, k, i) + BlockSize(k) <= (p + 1) * PAGE_SIZE
  {
    var n := BlockSize(k);
    var x := n * i;
    assert n * i + n <= n * PerArena(k) by {
      assert n * i + n == n * (i + 1);
      MulMonotone(n, i + 1, PerArena(k));
    }
    assert x / n == i by {
      DivOfMul(k, i);
    }
    hide BlockSize, PerArena;
    InPage(p, x);
  }

  lemma MulMonotone(n: nat, a: nat, b: nat)
    requires a <= b
    ensures n * a <= n * b
  {
  }

  lemma DivOfMul(k: nat, i: nat)
    requires k < DESC_CNT
    ensures (BlockSize(k) * i) / BlockSize(k) == i
  {
    if k == 0 {
    } else if k == 1 {
    } else if k == 2 {
    } else if k == 3 {
    } else if k == 4 {
    } else if k == 5 {
    } else {
      assert BlockSize(k) == 1024;
    }
  }

  /** Different blocks of a class do not overlap. */
  lemma BlocksApart(b: nat, c: nat, k: nat)
    requires k < DESC_CNT && IsBlock(b, k) && IsBlock(c, k) && b < c
    ensures b + BlockSize(k) <= c
  {
    var n, i, j := BlockSize(k), IdxOf(b, k), IdxOf(c, k);
    BlockInverse(ArenaOf(b), k, i);
    BlockInverse(ArenaOf(c), k, j);
    if ArenaOf(b) == ArenaOf(c) {
      if j <= i {
        MulMonotone(n, j, i);
      }
      MulMonotone(n, i + 1, j);
    }
  }

  /** Class k is the smallest whose blocks hold size bytes. */
  predicate ClassOf(size: nat, k: nat) {
    k < DESC_CNT && size <= BlockSize(k) && forall j :: 0 <= j < k ==> BlockSize(j) < size
  }

  /** sys_malloc's search for the smallest class that fits */
  method FindClass(size: nat) returns (k: nat)
    requires 0 < size <= 1024
    ensures ClassOf(size, k) && forall j :: ClassOf(size, j) ==> j == k
  {
    k := 0;
    while k < DESC_CNT && size > BlockSize(k)
      invariant k <= DESC_CNT && forall j :: 0 <= j < k ==> BlockSize(j) < size
    {
      k := k + 1;
    }
    assert BlockSize(6) == 1024;
  }

  // --- The heap's own state ---

  /** `struct arena`; desc is the number of the class, or -1 for NULL. */
  datatype Arena = Arena(desc: int, cnt: nat, large: bool)

  /** The free lists, the arenas by page, the blocks handed out with the sizes asked for, and which arena each page is part
      of. */
  datatype Heap = Heap(lists: seq<seq<nat>>, arenas: map<nat, Arena>, live: map<nat, nat>, owner: map<nat, nat>)

  predicate Small(h: Heap, p: nat) {
    p in h.arenas && 0 <= h.arenas[p].desc < DESC_CNT && !h.arenas[p].large
  }

  predicate Large(h: Heap, p: nat) {
    p in h.arenas && h.arenas[p].desc == -1 && h.arenas[p].large && h.arenas[p].cnt > 0
  }

  function Pages(a: Arena): nat {
    if a.large then a.cnt else 1
  }

  /** The blocks of a small arena that are on the free list of its class. */
  ghost function FreeIdx(h: Heap, p: nat): set<nat>
    requires |h.lists| == DESC_CNT && Small(h, p)
  {
    set i: nat | i < PerArena(h.arenas[p].desc) && Block(p, h.arenas[p].desc, i) in h.lists[h.arenas[p].desc]
  }

  ghost predicate ListsFit(lists: seq<seq<nat>>, arenas: map<nat, Arena>) {
    && |lists| == DESC_CNT
    && (forall k :: 0 <= k < DESC_CNT ==> Distinct(lists[k]))
    && forall k, b :: 0 <= k < DESC_CNT && b in lists[k] ==> IsBlock(b, k) && InClass(arenas, ArenaOf(b), k)
  }

  predicate InClass(arenas: map<nat, Arena>, p: nat, k: int) {
    p in arenas && arenas[p].desc == k && !arenas[p].large
  }

  ghost predicate ListsOk(h: Heap) {
    ListsFit(h.lists, h.arenas)
  }

  /** A small arena counts its blocks on the free list, and each of its blocks is either there or handed out. */
  ghost predicate SmallOk(h: Heap, p: nat)
    requires ListsOk(h) && Small(h, p)
  {
    var k := h.arenas[p].desc;
    && h.arenas[p].cnt == |FreeIdx(h, p)|
    && forall i: nat :: i < PerArena(k) ==> (Block(p, k, i) in h.lists[k] <==> Block(p, k, i) !in h.live)
  }

  ghost predicate LiveOk(h: Heap, a: nat)
    requires a in h.live
  {
    var p := ArenaOf(a);
    || (Small(h, p) && IsBlock(a, h.arenas[p].desc) && 0 < h.live[a] <= BlockSize(h.arenas[p].desc))
    || (Large(h, p) && a == p * PAGE_SIZE + HEADER && 1024 < h.live[a] && h.live[a] + HEADER <= h.arenas[p].cnt * PAGE_SIZE)
  }

  /** Page q is one of the pages of the arena at page p. */
  predicate Covers(arenas: map<nat, Arena>, p: nat, q: nat) {
    p in arenas && p <= q < p + Pages(arenas[p])
  }

  /** Every page is part of at most one arena. */
  ghost predicate OwnersFit(arenas: map<nat, Arena>, owner: map<nat, nat>) {
    && (forall p: nat, q: nat :: Covers(arenas, p, q) ==> q in owner && owner[q] == p)
    && forall q :: q in owner ==> Covers(arenas, owner[q], q)
  }

  ghost predicate OwnerOk(h: Heap) {
    OwnersFit(h.arenas, h.owner)
  }

  ghost predicate HeapOk(h: Heap) {
    && ListsOk(h) && OwnerOk(h)
    && (forall p :: p in h.arenas ==> Small(h, p) || Large(h, p))
    && (forall p: nat :: Small(h, p) ==> SmallOk(h, p))
    && (forall p: nat :: Large(h, p) ==> p * PAGE_SIZE + HEADER in h.live)
    && (forall a :: a in h.live ==> LiveOk(h, a))
  }

  /** Between calls no small arena is wholly free. */
  ghost predicate Settled(h: Heap) {
    HeapOk(h) && forall p: nat :: Small(h, p) ==> h.arenas[p].cnt < PerArena(h.arenas[p].desc)
  }

  // --- What it means ---

  /** Blocks handed out are as long as asked for, pairwise disjoint, clear of every arena's header and of every block on a
      free list, and inside the pages of their arenas. */
  lemma LiveBlocksApart(h: Heap, a: nat, b: nat)
    requires HeapOk(h) && a in h.live && b in h.live && a != b
    ensures a + h.live[a] <= b || b + h.live[b] <= a
  {
    LiveExtent(h, a);
    LiveExtent(h, b);
    hide IsBlock, SmallOk, ListsOk, OwnerOk;
    if ArenaOf(a) == ArenaOf(b) {
      SameArenaApart(h, a, h.arenas[ArenaOf(a)].desc, b);
    } else {
      SpansApart(h, ArenaOf(a), ArenaOf(b));
    }
  }

  /** A block handed out lies behind its arena's header, within its arena's pages. */
  lemma LiveExtent(h: Heap, a: nat)
    requires HeapOk(h) && a in h.live
    ensures ArenaOf(a) in h.arenas && LiveOk(h, a)
    ensures ArenaOf(a) * PAGE_SIZE + HEADER <= a
    ensures a + h.live[a] <= (ArenaOf(a) + Pages(h.arenas[ArenaOf(a)])) * PAGE_SIZE
  {
    var p := ArenaOf(a);
    assert LiveOk(h, a);
    if Small(h, p) && IsBlock(a, h.arenas[p].desc) {
      BlockInverse(p, h.arenas[p].desc, IdxOf(a, h.arenas[p].desc));
    }
  }

  /** The pages of different arenas do not meet. */
  lemma SpansApart(h: Heap, p: nat, q: nat)
    requires OwnerOk(h) && p in h.arenas && q in h.arenas && p != q && Pages(h.arenas[p]) > 0 && Pages(h.arenas[q]) > 0
    ensures p + Pages(h.arenas[p]) <= q || q + Pages(h.arenas[q]) <= p
  {
    assert Covers(h.arenas, p, p) && Covers(h.arenas, q, q);
    assert !Covers(h.arenas, p, q) && !Covers(h.arenas, q, p);
  }

  lemma HeadersApart(h: Heap, a: nat, p: nat)
    requires HeapOk(h) && a in h.live && p in h.arenas
    ensures a + h.live[a] <= p * PAGE_SIZE || p * PAGE_SIZE + HEADER <= a
  {
    LiveExtent(h, a);
    if p != ArenaOf(a) {
      SpansApart(h, p, ArenaOf(a));
    }
  }

  lemma FreeBlocksApart(h: Heap, a: nat, k: nat, b: nat)
    requires HeapOk(h) && a in h.live && k < DESC_CNT && b in h.lists[k]
    ensures a + h.live[a] <= b || b + BlockSize(k) <= a
  {
    hide IsBlock, SmallOk, ListsOk, OwnerOk;
    LiveExtent(h, a);
    FreeExtent(h, k, b);
    if ArenaOf(a) == ArenaOf(b) {
      FreeNotLive(h, k, b);
      SameArenaApart(h, a, k, b);
    } else {
      SpansApart(h, ArenaOf(a), ArenaOf(b));
    }
  }

  lemma FreeExtent(h: Heap, k: nat, b: nat)
    requires ListsOk(h) && k < DESC_CNT && b in h.lists[k]
    ensures Small(h, ArenaOf(b)) && h.arenas[ArenaOf(b)].desc == k && IsBlock(b, k)
    ensures ArenaOf(b) * PAGE_SIZE + HEADER <= b && b + BlockSize(k) <= (ArenaOf(b) + 1) * PAGE_SIZE
  {
    BlockInverse(ArenaOf(b), k, IdxOf(b, k));
  }

  lemma FreeNotLive(h: Heap, k: nat, b: nat)
    requires HeapOk(h) && k < DESC_CNT && b in h.lists[k]
    ensures b !in h.live
  {
    assert IsBlock(b, k) && SmallOk(h, ArenaOf(b));
  }

  lemma SameArenaApart(h: Heap, a: nat, k: nat, b: nat)
    requires a in h.live && LiveOk(h, a) && k < DESC_CNT && Small(h, ArenaOf(a)) && h.arenas[ArenaOf(a)].desc == k
    requires IsBlock(b, k) && a != b
    ensures a + h.live[a] <= b || b + BlockSize(k) <= a
  {
    if a < b {
      BlocksApart(a, b, k);
    } else {
      BlocksApart(b, a, k);
    }
  }

  /** When everything has been given back no arena is left and all free lists are empty. */
  lemma AllFreed(h: Heap)
    requires Settled(h) && h.live == map[]
    ensures h.arenas == map[] && h.owner == map[] && forall k :: 0 <= k < DESC_CNT ==> h.lists[k] == []
  {
    forall p
      ensures p !in h.arenas
    {
      if Small(h, p) {
        assert SmallOk(h, p);
        AllFree(h, p);
      }
    }
    forall k | 0 <= k < DESC_CNT
      ensures h.lists[k] == []
    {
      if |h.lists[k]| > 0 {
        FreeExtent(h, k, h.lists[k][0]);
      }
    }
  }

  /** An arena of which no block is handed out has counted them all. */
  lemma AllFree(h: Heap, p: nat)
    requires ListsOk(h) && Small(h, p) && SmallOk(h, p)
    ensures h.arenas[p].cnt <= PerArena(h.arenas[p].desc)
    ensures h.arenas[p].cnt == PerArena(h.arenas[p].desc) <==>
            forall i: nat :: i < PerArena(h.arenas[p].desc) ==> Block(p, h.arenas[p].desc, i) in h.lists[h.arenas[p].desc]
  {
    var n := PerArena(h.arenas[p].desc);
    var f := FreeIdx(h, p);
    RangeSize(n);
    assert f <= Range(n);
    SubsetSize(f, Range(n));
    if forall i: nat :: i < n ==> Block(p, h.arenas[p].desc, i) in h.lists[h.arenas[p].desc] {
      assert f == Range(n);
    }
    if |f| == n {
      assert f == Range(n);
      forall i: nat | i < n
        ensures Block(p, h.arenas[p].desc, i) in h.lists[h.arenas[p].desc]
      {
        assert i in f;
      }
    }
  }

  ghost function Range(n: nat): (s: set<nat>)
    ensures forall i: nat :: i in s <==> i < n
  {
    if n == 0 then {} else Range(n - 1) + {n - 1}
  }

  lemma {:induction false} RangeSize(n: nat)
    ensures |Range(n)| == n
  {
    if n > 0 {
      RangeSize(n - 1);
      assert Range(n) == Range(n - 1) + {n - 1};
    }
  }

  lemma {:induction false} SubsetSize(a: set<nat>, b: set<nat>)
    requires a <= b
    ensures |a| <= |b| && (|a| == |b| ==> a == b)
  {
    if a != {} {
      var x :| x in a;
      SubsetSize(a - {x}, b - {x});
      assert a == a - {x} + {x} && b == b - {x} + {x};
    }
  }

  // --- sys_malloc and sys_free, without the pages ---

  function Blocks(p: nat, k: nat, n: nat): (q: seq<nat>)
    requires k < DESC_CNT
    ensures |q| == n && forall i :: 0 <= i < n ==> q[i] == Block(p, k, i)
  {
    seq(n, i requires 0 <= i < n => Block(p, k, i))
  }

  /** A page becomes an arena of class k, whose free list was empty. */
  function NewArena(h: Heap, p: nat, k: nat): Heap
    requires k < DESC_CNT && |h.lists| == DESC_CNT
  {
    h.(lists := h.lists[k := Blocks(p, k, PerArena(k))],
       arenas := h.arenas[p := Arena(k, PerArena(k), false)],
       owner := Claimed(h.owner, p, 1))
  }

  /** The n pages from p on become part of the arena at p. */
  function Claimed(owner: map<nat, nat>, p: nat, n: nat): map<nat, nat> {
    map q | q in owner.Keys + Span(p, n) :: if p <= q < p + n then p else owner[q]
  }

  /** The first block of the free list is handed out. */
  function Take(h: Heap, k: nat, size: nat): Heap
    requires k < DESC_CNT && |h.lists| == DESC_CNT && |h.lists[k]| > 0
    requires ArenaOf(h.lists[k][0]) in h.arenas && h.arenas[ArenaOf(h.lists[k][0])].cnt > 0
  {
    var b := h.lists[k][0];
    var a := h.arenas[ArenaOf(b)];
    h.(lists := h.lists[k := h.lists[k][1..]], arenas := h.arenas[ArenaOf(b) := a.(cnt := a.cnt - 1)], live := h.live[b := size])
  }

  /** A block comes back to the end of the free list. */
  function Put(h: Heap, b: nat): Heap
    requires |h.lists| == DESC_CNT && Small(h, ArenaOf(b))
  {
    var a := h.arenas[ArenaOf(b)];
    h.(lists := h.lists[a.desc := h.lists[a.desc] + [b]], arenas := h.arenas[ArenaOf(b) := a.(cnt := a.cnt + 1)],
       live := h.live - {b})
  }

  /** An arena all of whose blocks are free is dissolved; `rest` is what list_remove leaves of its class's list. */
  function Drop(h: Heap, p: nat, rest: seq<nat>): Heap
    requires |h.lists| == DESC_CNT && Small(h, p)
  {
    h.(lists := h.lists[h.arenas[p].desc := rest], arenas := h.arenas - {p}, owner := h.owner - Span(p, 1))
  }

  function NewLarge(h: Heap, p: nat, n: nat, size: nat): Heap {
    h.(arenas := h.arenas[p := Arena(-1, n, true)], live := h.live[p * PAGE_SIZE + HEADER := size],
       owner := Claimed(h.owner, p, n))
  }

  function DropLarge(h: Heap, p: nat, n: nat): Heap {
    h.(arenas := h.arenas - {p}, live := h.live - {p * PAGE_SIZE + HEADER}, owner := h.owner - Span(p, n))
  }

  lemma OwnersAdd(arenas: map<nat, Arena>, owner: map<nat, nat>, p: nat, a: Arena)
    requires OwnersFit(arenas, owner) && p !in arenas && forall q :: p <= q < p + Pages(a) ==> q !in owner
    ensures OwnersFit(arenas[p := a], Claimed(owner, p, Pages(a)))
  {
    var arenas', owner' := arenas[p := a], Claimed(owner, p, Pages(a));
    forall r: nat, q: nat | Covers(arenas', r, q)
      ensures q in owner' && owner'[q] == r
    {
      assert r != p ==> Covers(arenas, r, q);
    }
    forall q | q in owner'
      ensures Covers(arenas', owner'[q], q)
    {
      assert q in owner ==> Covers(arenas, owner[q], q);
    }
  }

  lemma OwnersDrop(arenas: map<nat, Arena>, owner: map<nat, nat>, p: nat)
    requires OwnersFit(arenas, owner) && p in arenas
    ensures OwnersFit(arenas - {p}, owner - Span(p, Pages(arenas[p])))
  {
    var arenas', owner' := arenas - {p}, owner - Span(p, Pages(arenas[p]));
    forall r: nat, q: nat | Covers(arenas', r, q)
      ensures q in owner' && owner'[q] == r
    {
      assert Covers(arenas, r, q) && !Covers(arenas, p, q);
    }
    forall q | q in owner'
      ensures Covers(arenas', owner'[q], q)
    {
      assert Covers(arenas, owner[q], q);
    }
  }

  lemma OwnersSame(arenas: map<nat, Arena>, arenas': map<nat, Arena>, owner: map<nat, nat>)
    requires OwnersFit(arenas, owner)
    requires forall p :: (p in arenas <==> p in arenas') && (p in arenas ==> Pages(arenas'[p]) == Pages(arenas[p]))
    ensures OwnersFit(arenas', owner)
  {
    assert forall p: nat, q: nat :: Covers(arenas', p, q) == Covers(arenas, p, q);
  }

  /** The free list of class k is replaced; arenas of other lists' blocks stay what they are. */
  lemma ListPut(lists: seq<seq<nat>>, arenas: map<nat, Arena>, k: nat, q: seq<nat>, arenas': map<nat, Arena>)
    requires ListsFit(lists, arenas) && k < DESC_CNT && Distinct(q)
    requires forall b :: b in q ==> IsBlock(b, k) && InClass(arenas', ArenaOf(b), k)
    requires forall j, b :: 0 <= j < DESC_CNT && j != k && b in lists[j] ==> InClass(arenas', ArenaOf(b), j)
    ensures ListsFit(lists[k := q], arenas')
  {
    hide IsBlock, Distinct, InClass;
  }

  lemma NotOwned(h: Heap, p: nat)
    requires HeapOk(h) && p !in h.owner
    ensures p !in h.arenas && (forall a :: a in h.live ==> ArenaOf(a) != p)
    ensures forall k, b :: 0 <= k < DESC_CNT && b in h.lists[k] ==> ArenaOf(b) != p
  {
    assert p in h.arenas ==> Covers(h.arenas, p, p);
    forall a | a in h.live
      ensures ArenaOf(a) in h.arenas
    {
      LiveExtent(h, a);
    }
  }

  /** Nothing but arena p and its blocks has changed. */
  ghost predicate SameElsewhere(h: Heap, h': Heap, p: nat)
    requires |h.lists| == DESC_CNT && |h'.lists| == DESC_CNT
  {
    && (forall q :: q != p ==> (q in h'.arenas <==> q in h.arenas) && (q in h.arenas ==> h'.arenas[q] == h.arenas[q]))
    && (forall k, b :: 0 <= k < DESC_CNT && ArenaOf(b) != p ==> (b in h'.lists[k] <==> b in h.lists[k]))
    && (forall b :: ArenaOf(b) != p ==> (b in h'.live <==> b in h.live) && (b in h.live ==> h'.live[b] == h.live[b]))
  }

  /** What arena p owes to HeapOk. */
  ghost predicate ArenaOk(h: Heap, p: nat)
    requires ListsOk(h)
  {
    && (p in h.arenas ==> (Small(h, p) && SmallOk(h, p)) || (Large(h, p) && p * PAGE_SIZE + HEADER in h.live))
    && (forall a :: a in h.live && ArenaOf(a) == p ==> LiveOk(h, a))
  }

  lemma Rebuilt(h: Heap, h': Heap, p: nat)
    requires HeapOk(h) && ListsOk(h') && OwnerOk(h') && SameElsewhere(h, h', p) && ArenaOk(h', p)
    ensures HeapOk(h')
  {
    hide IsBlock, OwnersFit, SmallOk, LiveOk, ListsFit;
    RebuiltCounts(h, h', p);
    RebuiltLive(h, h', p);
  }

  lemma RebuiltCounts(h: Heap, h': Heap, p: nat)
    requires HeapOk(h) && ListsOk(h') && SameElsewhere(h, h', p)
    ensures forall q: nat :: Small(h', q) && q != p ==> SmallOk(h', q)
  {
    hide IsBlock, OwnersFit, LiveOk;
    forall q: nat | Small(h', q) && q != p
      ensures SmallOk(h', q)
    {
      assert SmallOk(h, q);
      SameBlocks(h, h', q);
    }
  }

  lemma RebuiltLive(h: Heap, h': Heap, p: nat)
    requires HeapOk(h) && ListsOk(h') && SameElsewhere(h, h', p)
    ensures forall a :: a in h'.live && ArenaOf(a) != p ==> LiveOk(h', a)
  {
    hide IsBlock, OwnersFit, SmallOk, ListsFit;
    forall a | a in h'.live && ArenaOf(a) != p
      ensures LiveOk(h', a)
    {
      assert LiveOk(h, a);
    }
  }

  lemma NewArenaOk(h: Heap, p: nat, k: nat)
    requires HeapOk(h) && p !in h.owner && k < DESC_CNT && h.lists[k] == []
    ensures HeapOk(NewArena(h, p, k))
  {
    hide IsBlock, LiveOk, HeapOk, OwnersFit, SmallOk;
    HeapLists(h);
    var h' := NewArena(h, p, k);
    NotOwned(h, p);
    NewArenaLists(h, p, k);
    NewArenaCount(h, h', p, k);
    Rebuilt(h, h', p);
  }

  lemma HeapLists(h: Heap)
    requires HeapOk(h)
    ensures ListsOk(h) && OwnerOk(h)
  {
  }

  lemma NewArenaCount(h: Heap, h': Heap, p: nat, k: nat)
    requires k < DESC_CNT && ListsOk(h') && Small(h', p) && h'.arenas[p] == Arena(k, PerArena(k), false)
    requires h'.lists[k] == Blocks(p, k, PerArena(k)) && forall a :: a in h'.live ==> ArenaOf(a) != p
    ensures SmallOk(h', p)
  {
    forall i: nat | i < PerArena(k)
      ensures Block(p, k, i) !in h'.live && Block(p, k, i) in h'.lists[k]
    {
      BlockInverse(p, k, i);
      assert h'.lists[k][i] == Block(p, k, i);
    }
    RangeSize(PerArena(k));
    assert FreeIdx(h', p) == Range(PerArena(k));
  }

  lemma NewArenaLists(h: Heap, p: nat, k: nat)
    requires ListsOk(h) && OwnerOk(h) && p !in h.arenas && p !in h.owner && k < DESC_CNT && h.lists[k] == []
    ensures ListsOk(NewArena(h, p, k)) && OwnerOk(NewArena(h, p, k))
    ensures forall b :: b in NewArena(h, p, k).lists[k] ==> ArenaOf(b) == p
  {
    var a := Arena(k, PerArena(k), false);
    OwnersAdd(h.arenas, h.owner, p, a);
    BlocksAre(p, k);
    hide IsBlock, OwnersFit, Distinct, Block, Blocks;
    ListPut(h.lists, h.arenas, k, Blocks(p, k, PerArena(k)), h.arenas[p := a]);
  }

  lemma BlocksAre(p: nat, k: nat)
    requires k < DESC_CNT
    ensures Distinct(Blocks(p, k, PerArena(k)))
    ensures forall b :: b in Blocks(p, k, PerArena(k)) ==> IsBlock(b, k) && ArenaOf(b) == p
  {
    var q := Blocks(p, k, PerArena(k));
    forall i | 0 <= i < |q|
      ensures IsBlock(q[i], k) && ArenaOf(q[i]) == p && IdxOf(q[i], k) == i
    {
      BlockInverse(p, k, i);
    }
  }

  /** Arena q and which of its blocks are free are the same. */
  lemma SameBlocks(h: Heap, h': Heap, q: nat)
    requires ListsOk(h) && ListsOk(h') && Small(h, q) && Small(h', q) && h'.arenas[q] == h.arenas[q] && SmallOk(h, q)
    requires var k := h.arenas[q].desc;
             forall b :: ArenaOf(b) == q ==> (b in h'.lists[k] <==> b in h.lists[k]) && (b in h'.live <==> b in h.live)
    ensures SmallOk(h', q)
  {
    var k := h.arenas[q].desc;
    forall i: nat | i < PerArena(k)
      ensures ArenaOf(Block(q, k, i)) == q
    {
      BlockInverse(q, k, i);
    }
    assert FreeIdx(h', q) == FreeIdx(h, q);
  }

  lemma TakeOk(h: Heap, k: nat, size: nat)
    requires HeapOk(h) && k < DESC_CNT && |h.lists[k]| > 0 && 0 < size <= BlockSize(k)
    ensures ArenaOf(h.lists[k][0]) in h.arenas && h.arenas[ArenaOf(h.lists[k][0])].cnt > 0
    ensures h.lists[k][0] !in h.live && HeapOk(Take(h, k, size))
  {
    hide OwnerOk;
    var b := h.lists[k][0];
    var p := ArenaOf(b);
    HeapLists(h);
    FreeExtent(h, k, b);
    FreeNotLive(h, k, b);
    assert SmallOk(h, p);
    assert IdxOf(b, k) in FreeIdx(h, p);
    hide HeapOk, IsBlock;
    var h' := Take(h, k, size);
    TakeLists(h, k, size);
    OneBlockChanged(h, h', p, b);
    LiveAfterTake(h, h', p, b);
    hide SmallOk;
    Rebuilt(h, h', p);
  }

  lemma TakeLists(h: Heap, k: nat, size: nat)
    requires ListsOk(h) && OwnerOk(h) && k < DESC_CNT && |h.lists[k]| > 0 && ArenaOf(h.lists[k][0]) in h.arenas
    requires h.arenas[ArenaOf(h.lists[k][0])].cnt > 0 && Small(h, ArenaOf(h.lists[k][0]))
    ensures var h' := Take(h, k, size);
            && ListsOk(h') && OwnerOk(h') && SameElsewhere(h, h', ArenaOf(h.lists[k][0]))
            && h.lists[k][0] !in h'.lists[k] && forall c :: c != h.lists[k][0] ==> (c in h'.lists[k] <==> c in h.lists[k])
  {
    hide IsBlock, OwnersFit;
    var h' := Take(h, k, size);
    assert h.lists[k] == [h.lists[k][0]] + h'.lists[k];
    OwnersSame(h.arenas, h'.arenas, h.owner);
    ListPut(h.lists, h.arenas, k, h'.lists[k], h'.arenas);
  }

  lemma LiveAfterTake(h: Heap, h': Heap, p: nat, b: nat)
    requires (forall a :: a in h.live && ArenaOf(a) == p ==> LiveOk(h, a)) && Small(h, p) && Small(h', p)
    requires h'.arenas[p].desc == h.arenas[p].desc && b in h'.live && h'.live == h.live[b := h'.live[b]]
    requires ArenaOf(b) == p && IsBlock(b, h.arenas[p].desc) && 0 < h'.live[b] <= BlockSize(h.arenas[p].desc)
    ensures forall a :: a in h'.live && ArenaOf(a) == p ==> LiveOk(h', a)
  {
    hide IsBlock;
    forall a | a in h'.live && ArenaOf(a) == p
      ensures LiveOk(h', a)
    {
      assert a != b ==> LiveOk(h, a);
    }
  }

  /** In arena p, block b goes from free to handed out or back, and the count follows. */
  lemma OneBlockChanged(h: Heap, h': Heap, p: nat, b: nat)
    requires ListsOk(h) && ListsOk(h') && Small(h, p) && Small(h', p) && SmallOk(h, p) && h'.arenas[p].desc == h.arenas[p].desc
    requires p == ArenaOf(b) && IsBlock(b, h.arenas[p].desc)
    requires var k := h.arenas[p].desc;
             && (b in h.lists[k] <==> b in h'.live) && (b in h'.lists[k] <==> b in h.live) && (b in h.live <==> b !in h'.live)
             && h'.arenas[p].cnt == (if b in h.live then h.arenas[p].cnt + 1 else h.arenas[p].cnt - 1)
             && forall c :: c != b ==> (c in h'.lists[k] <==> c in h.lists[k]) && (c in h'.live <==> c in h.live)
    ensures SmallOk(h', p)
  {
    var k := h.arenas[p].desc;
    var i := IdxOf(b, k);
    forall j: nat | j < PerArena(k)
      ensures Block(p, k, j) == b <==> j == i
    {
      BlockInverse(p, k, j);
    }
    FreeIdxChanged(h, h', p, i);
  }

  lemma FreeIdxChanged(h: Heap, h': Heap, p: nat, i: nat)
    requires |h.lists| == |h'.lists| == DESC_CNT && Small(h, p) && Small(h', p) && h'.arenas[p].desc == h.arenas[p].desc
    requires var k := h.arenas[p].desc;
             && i < PerArena(k)
             && (Block(p, k, i) in h.lists[k] <==> Block(p, k, i) !in h'.lists[k])
             && forall j: nat :: j < PerArena(k) && j != i ==> (Block(p, k, j) in h'.lists[k] <==> Block(p, k, j) in h.lists[k])
    ensures |FreeIdx(h', p)| == if i in FreeIdx(h, p) then |FreeIdx(h, p)| - 1 else |FreeIdx(h, p)| + 1
  {
    hide Block;
    if i in FreeIdx(h, p) {
      assert FreeIdx(h', p) == FreeIdx(h, p) - {i};
    } else {
      assert FreeIdx(h', p) == FreeIdx(h, p) + {i};
    }
  }

  lemma PutOk(h: Heap, b: nat)
    requires HeapOk(h) && b in h.live && Small(h, ArenaOf(b))
    ensures h.arenas[ArenaOf(b)].cnt < PerArena(h.arenas[ArenaOf(b)].desc)
    ensures b !in h.lists[h.arenas[ArenaOf(b)].desc] && HeapOk(Put(h, b))
  {
    hide OwnerOk;
    var p := ArenaOf(b);
    var k := h.arenas[p].desc;
    HeapLists(h);
    LiveExtent(h, b);
    assert SmallOk(h, p);
    PutRoom(h, p, b);
    hide HeapOk, IsBlock;
    var h' := Put(h, b);
    PutLists(h, b);
    OneBlockChanged(h, h', p, b);
    hide SmallOk;
    LiveAfterPut(h, h', p, b);
    Rebuilt(h, h', p);
  }

  lemma PutRoom(h: Heap, p: nat, b: nat)
    requires ListsOk(h) && Small(h, p) && SmallOk(h, p) && ArenaOf(b) == p && IsBlock(b, h.arenas[p].desc) && b in h.live
    ensures h.arenas[p].cnt < PerArena(h.arenas[p].desc) && b !in h.lists[h.arenas[p].desc]
  {
    AllFree(h, p);
    assert Block(p, h.arenas[p].desc, IdxOf(b, h.arenas[p].desc)) == b;
  }

  lemma PutLists(h: Heap, b: nat)
    requires ListsOk(h) && OwnerOk(h) && Small(h, ArenaOf(b)) && IsBlock(b, h.arenas[ArenaOf(b)].desc)
    requires b !in h.lists[h.arenas[ArenaOf(b)].desc]
    ensures var h', k := Put(h, b), h.arenas[ArenaOf(b)].desc;
            && ListsOk(h') && OwnerOk(h') && SameElsewhere(h, h', ArenaOf(b))
            && forall c :: c in h'.lists[k] <==> c in h.lists[k] || c == b
  {
    hide IsBlock, OwnersFit;
    var h', k := Put(h, b), h.arenas[ArenaOf(b)].desc;
    OwnersSame(h.arenas, h'.arenas, h.owner);
    ListPut(h.lists, h.arenas, k, h'.lists[k], h'.arenas);
  }

  lemma LiveAfterPut(h: Heap, h': Heap, p: nat, b: nat)
    requires (forall a :: a in h.live ==> LiveOk(h, a)) && Small(h, p) && Small(h', p)
    requires h'.arenas[p].desc == h.arenas[p].desc && h'.live == h.live - {b}
    ensures forall a :: a in h'.live && ArenaOf(a) == p ==> LiveOk(h', a)
  {
    hide IsBlock;
    forall a | a in h'.live && ArenaOf(a) == p
      ensures LiveOk(h', a)
    {
      assert LiveOk(h, a);
    }
  }

  /** What is left of a free list when the blocks of arena p have been removed. */
  ghost predicate Without(q: seq<nat>, rest: seq<nat>, p: nat) {
    Distinct(rest) && forall b :: b in rest <==> b in q && ArenaOf(b) != p
  }

  /** An arena whose count is full has all its blocks on the free list, which is what sys_free asserts, and none handed out;
      it can be dissolved. */
  lemma DropOk(h: Heap, p: nat, rest: seq<nat>)
    requires HeapOk(h) && Small(h, p) && h.arenas[p].cnt == PerArena(h.arenas[p].desc)
    requires Without(h.lists[h.arenas[p].desc], rest, p)
    ensures forall i: nat :: i < PerArena(h.arenas[p].desc) ==> Block(p, h.arenas[p].desc, i) in h.lists[h.arenas[p].desc]
    ensures HeapOk(Drop(h, p, rest))
  {
    assert SmallOk(h, p);
    HeapLists(h);
    AllFree(h, p);
    NoneLive(h, p);
    hide IsBlock, HeapOk, SmallOk;
    DropLists(h, p, rest);
    Rebuilt(h, Drop(h, p, rest), p);
  }

  lemma NoneLive(h: Heap, p: nat)
    requires HeapOk(h) && Small(h, p)
    requires forall i: nat :: i < PerArena(h.arenas[p].desc) ==> Block(p, h.arenas[p].desc, i) in h.lists[h.arenas[p].desc]
    ensures forall a :: a in h.live ==> ArenaOf(a) != p
  {
    hide OwnerOk, ListsOk;
    forall a | a in h.live
      ensures ArenaOf(a) != p
    {
      assert LiveOk(h, a) && SmallOk(h, p);
    }
  }

  lemma DropLists(h: Heap, p: nat, rest: seq<nat>)
    requires ListsOk(h) && OwnerOk(h) && Small(h, p) && Without(h.lists[h.arenas[p].desc], rest, p)
    ensures var h' := Drop(h, p, rest); ListsOk(h') && OwnerOk(h') && SameElsewhere(h, h', p)
  {
    hide IsBlock, OwnersFit, Distinct;
    OwnersDrop(h.arenas, h.owner, p);
    ListPut(h.lists, h.arenas, h.arenas[p].desc, rest, h.arenas - {p});
  }

  lemma NewLargeOk(h: Heap, p: nat, n: nat, size: nat)
    requires HeapOk(h) && n > 0 && 1024 < size && size + HEADER <= n * PAGE_SIZE
    requires forall q :: p <= q < p + n ==> q !in h.owner
    ensures HeapOk(NewLarge(h, p, n, size)) && p * PAGE_SIZE + HEADER !in h.live
  {
    hide IsBlock, HeapOk, OwnersFit, SmallOk;
    var h' := NewLarge(h, p, n, size);
    HeapLists(h);
    NotOwned(h, p);
    assert ArenaOf(p * PAGE_SIZE + HEADER) == p;
    OwnersAdd(h.arenas, h.owner, p, Arena(-1, n, true));
    NewLargeLists(h, p, n, size);
    Rebuilt(h, h', p);
  }

  lemma NewLargeSettles(h: Heap, p: nat, n: nat, size: nat)
    requires Settled(h) && n > 0 && 1024 < size && size + HEADER <= n * PAGE_SIZE
    requires forall q :: p <= q < p + n ==> q !in h.owner
    ensures Settled(NewLarge(h, p, n, size)) && p * PAGE_SIZE + HEADER !in h.live
    ensures ArenaOf(p * PAGE_SIZE) == p == ArenaOf(p * PAGE_SIZE + HEADER)
  {
    hide HeapOk, PerArena;
    NewLargeOk(h, p, n, size);
  }

  lemma NewLargeLists(h: Heap, p: nat, n: nat, size: nat)
    requires ListsOk(h) && p !in h.arenas
    ensures var h' := NewLarge(h, p, n, size); ListsOk(h')
  {
    hide IsBlock;
  }

  lemma DropLargeOk(h: Heap, p: nat)
    requires HeapOk(h) && Large(h, p)
    ensures HeapOk(DropLarge(h, p, h.arenas[p].cnt))
  {
    hide IsBlock, HeapOk, OwnersFit, SmallOk;
    var h' := DropLarge(h, p, h.arenas[p].cnt);
    HeapLists(h);
    OwnersDrop(h.arenas, h.owner, p);
    DropLargeLists(h, p);
    OneLarge(h, p);
    Rebuilt(h, h', p);
  }

  /** A large arena holds one block, right behind its header. */
  lemma OneLarge(h: Heap, p: nat)
    requires HeapOk(h) && Large(h, p)
    ensures ArenaOf(p * PAGE_SIZE + HEADER) == p
    ensures forall a :: a in h.live && ArenaOf(a) == p ==> a == p * PAGE_SIZE + HEADER
  {
    hide IsBlock, ListsOk, OwnerOk;
    forall a | a in h.live && ArenaOf(a) == p
      ensures a == p * PAGE_SIZE + HEADER
    {
      assert LiveOk(h, a);
    }
  }

  lemma DropLargeLists(h: Heap, p: nat)
    requires ListsOk(h) && Large(h, p)
    ensures ListsOk(DropLarge(h, p, h.arenas[p].cnt))
    ensures forall k, b :: 0 <= k < DESC_CNT && b in h.lists[k] ==> ArenaOf(b) != p
  {
    hide IsBlock;
  }

  // --- The code ---

  /** Every page that belongs to an arena is a mapped page of this heap, and not the page directory's. */
  ghost predicate Backed(s: Vm, pf: PoolFlag, owner: map<nat, nat>) {
    forall q :: q in owner ==> FirstPage(pf) <= q < FirstPage(pf) + |s.V(pf)| && Mapping(s, q).Some? && Mapping(s, q) != Some(s.pd)
  }

  /** A heap has drawn pages that nobody had, and these only. */
  ghost predicate Drew(s: Vm, t: Vm, had: set<nat>, has: set<nat>, pages: set<nat>, pages': set<nat>) {
    Spared(s, t, {}) && had <= has && pages' == pages + (has - had) && forall q :: q in has - had ==> Mapping(s, q) == None
  }

  /** A heap has given back pages that it had. */
  ghost predicate GaveBack(s: Vm, t: Vm, had: set<nat>, has: set<nat>, pages: set<nat>, pages': set<nat>) {
    Spared(s, t, had - has) && has <= had && pages' == pages - (had - has)
  }

  lemma NothingDrawn(s: Vm, had: set<nat>, pages: set<nat>)
    ensures Drew(s, s, had, had, pages, pages) && GaveBack(s, s, had, had, pages, pages)
  {
    hide Mapping;
    assert pages + (had - had) == pages && pages - (had - had) == pages;
  }

  lemma BackedSpared(s: Vm, t: Vm, pf: PoolFlag, owner: map<nat, nat>, touched: set<nat>)
    requires Backed(s, pf, owner) && Spared(s, t, touched) && owner.Keys !! touched
    ensures Backed(t, pf, owner)
  {
    hide Mapping;
  }

  lemma BackedClaimed(s: Vm, t: Vm, pf: PoolFlag, owner: map<nat, nat>, v: nat, cnt: nat)
    requires Backed(s, pf, owner) && Spared(s, t, {}) && FirstPage(pf) <= v && v + cnt <= FirstPage(pf) + |t.V(pf)|
    requires forall p :: p in Span(v, cnt) ==> Mapping(s, p) == None && Mapping(t, p).Some? && Mapping(t, p) != Some(t.pd)
    ensures forall q :: v <= q < v + cnt ==> q !in owner
    ensures Backed(t, pf, Claimed(owner, v, cnt)) && Claimed(owner, v, cnt).Keys == owner.Keys + Span(v, cnt)
    ensures Claimed(owner, v, cnt).Keys - owner.Keys == Span(v, cnt)
  {
    hide Mapping;
    forall q | v <= q < v + cnt
      ensures q !in owner
    {
      assert q in Span(v, cnt);
    }
    BackedSpared(s, t, pf, owner, {});
  }

  lemma BackedShrunk(s: Vm, t: Vm, pf: PoolFlag, owner: map<nat, nat>, v: nat, cnt: nat)
    requires Backed(s, pf, owner) && Spared(s, t, Span(v, cnt)) && Span(v, cnt) <= owner.Keys
    ensures Backed(t, pf, owner - Span(v, cnt)) && owner.Keys - (owner - Span(v, cnt)).Keys == Span(v, cnt)
  {
    hide Mapping;
  }

  /** The frames that are taken are those of `base` and the ones that hold a page table of the active directory which `base`
      lacks; these belong to the kernel pool. */
  ghost predicate FramesBack(l: Pools, base: Vm, s: Vm) {
    && |s.frames| == |base.frames| == PoolBits(l)
    && (forall b: nat :: b < PoolBits(l) ==>
          (s.frames[b] <==> base.frames[b] || TableAt(Tables(base), Tables(s), FrameAt(l, b))))
    && PoolOf(l, PF_USER, s.frames) == PoolOf(l, PF_USER, base.frames)
  }

  /** A heap gives everything back: when every block has been freed and no malloc_page has failed midway, all seven free lists
      are empty, no arena is left, and of the pages that were out just those of others are. If there are none, the addresses,
      the mappings and the frames of the user pool are what they were at first; and of the kernel pool just the frames are
      taken in addition that hold page tables made meanwhile: none, if no page table has been made. */
  lemma HeapConserved(l: Pools, base: Vm, s: Vm, h: Heap, others: set<nat>, tables: set<nat>)
    requires Settled(h) && h.live == map[] && Own(l, base, s, h.owner.Keys + others, tables)
    ensures h.arenas == map[] && |h.lists| == DESC_CNT && forall k :: 0 <= k < DESC_CNT ==> h.lists[k] == []
    ensures Own(l, base, s, others, tables)
    ensures others == {} ==> s.kv == base.kv && s.uv == base.uv && forall p: nat :: Mapping(s, p) == Mapping(base, p)
    ensures others == {} ==> FramesBack(l, base, s) && (tables == {} ==> s.frames == base.frames)
  {
    hide Own, Mapping, Tables, TableAt;
    AllFreed(h);
    assert h.owner.Keys == {};
    assert h.owner.Keys + others == others;
    if others == {} {
      OwnNone(l, base, s, tables);
      TablesAre(l, base, s, {}, tables, 0);
    }
  }

  /** One of the heaps that sys_malloc and sys_free work on: the kernel's, or a process's while its directory is active. Its
      pages are in an account that it may share with others. */
  class Allocator {
    const acc: Account
    const mm: Manager
    const pf: PoolFlag
    var lists: seq<seq<nat>>
    var arenas: map<nat, Arena>
    ghost var live: map<nat, nat>
    ghost var owner: map<nat, nat>

    /** block_desc_init */
    constructor (acc: Account, pf: PoolFlag)
      requires acc.Valid()
      ensures Valid() && this.acc == acc && mm == acc.mm && this.pf == pf && live == map[] && owner == map[]
    {
      this.acc, this.mm, this.pf, lists, arenas := acc, acc.mm, pf, seq(DESC_CNT, _ => []), map[];
      live, owner := map[], map[];
    }

    ghost function H(): Heap
      reads this
    {
      Heap(lists, arenas, live, owner)
    }

    ghost predicate PagesOk()
      reads `owner, acc, mm, acc.mm, mm.bits, mm.userVaddr.bits
    {
      acc.mm == mm && acc.Valid() && Backed(mm.State(), pf, owner) && owner.Keys <= acc.pages
    }

    ghost predicate Valid()
      reads this, acc, mm, acc.mm, mm.bits, mm.userVaddr.bits
    {
      Settled(H()) && PagesOk()
    }

    lemma NothingYet()
      requires PagesOk()
      ensures mm.Shape() && acc.mm == mm
      ensures Drew(mm.State(), mm.State(), owner.Keys, owner.Keys, acc.pages, acc.pages)
      ensures GaveBack(mm.State(), mm.State(), owner.Keys, owner.Keys, acc.pages, acc.pages)
    {
      hide Sound, Own, Backed, Drew, GaveBack;
      NothingDrawn(mm.State(), owner.Keys, acc.pages);
    }

    /** What others do with pages of theirs leaves this heap in order. */
    twostate lemma Undisturbed(touched: set<nat>)
      requires old(Valid()) && unchanged(this) && acc.Valid() && owner.Keys <= acc.pages
      requires Spared(old(mm.State()), mm.State(), touched) && owner.Keys !! touched
      ensures Valid()
    {
      hide Settled, Backed, Spared, Sound, Own;
      BackedSpared(old(mm.State()), mm.State(), pf, owner, touched);
    }

    /** malloc_page for this heap */
    method TakePages(n: nat) returns (vaddr: nat, ghost page: nat)
      requires PagesOk() && n > 0 && TableRoom(mm.pools, mm.State(), pf, n)
      modifies mm`mem, mm.bits, mm.userVaddr.bits, acc, this`owner
      ensures PagesOk() && Drew(old(mm.State()), mm.State(), old(owner).Keys, owner.Keys, old(acc.pages), acc.pages)
      ensures old(acc.tables) <= acc.tables && (pf == PF_KERNEL ==> acc.tables == old(acc.tables))
      ensures vaddr != 0 <==> CanMap(mm.pools, old(mm.State()), pf, n)
      ensures vaddr != 0 ==>
                && vaddr == page * PAGE_SIZE && (forall q :: page <= q < page + n ==> q !in old(owner))
                && owner == Claimed(old(owner), page, n) && acc.intact == old(acc.intact)
      ensures vaddr == 0 ==> owner == old(owner) && acc.intact == (old(acc.intact) && mm.State() == old(mm.State()))
    {
      hide Sound, Own, CanMap, TableRoom, BitsOf, Backed, Mapping, Spared;
      ghost var s := mm.State();
      vaddr, page := acc.TakePages(pf, n);
      if vaddr == 0 {
        BackedSpared(s, mm.State(), pf, owner, {});
      } else {
        BackedClaimed(s, mm.State(), pf, owner, page, n);
        owner := Claimed(owner, page, n);
      }
    }

    /** mfree_page for this heap */
    method GivePages(page: nat, n: nat)
      requires PagesOk() && n > 0 && forall q :: page <= q < page + n ==> q in owner
      modifies mm`mem, mm.bits, mm.userVaddr.bits, acc`pages, this`owner
      ensures PagesOk() && owner == old(owner) - Span(page, n)
      ensures GaveBack(old(mm.State()), mm.State(), old(owner).Keys, owner.Keys, old(acc.pages), acc.pages)
    {
      hide Sound, Own, BitsOf, Mapping, Spared;
      ghost var s := mm.State();
      assert page in owner && page + n - 1 in owner;
      acc.GivePages(pf, page, n);
      BackedShrunk(s, mm.State(), pf, owner, page, n);
      owner := owner - Span(page, n);
    }

    /** The pages that sys_malloc asks for when it does ask: one for an arena, or the fewest that hold block and header. */
    function PagesFor(size: nat): (n: nat)
      ensures n > 0 && (size <= 1024 ==> n == 1)
      ensures size > 1024 ==> (n - 1) * PAGE_SIZE < size + HEADER <= n * PAGE_SIZE
    {
      if size > 1024 then (size + HEADER + PAGE_SIZE - 1) / PAGE_SIZE else 1
    }

    /** pool_size of the heap's pool */
    function PoolSize(): nat {
      (if pf == PF_KERNEL then mm.pools.kernelPages else mm.pools.userPages) * PAGE_SIZE
    }

    /** It is the size of all frames of that pool. */
    lemma PoolSizeIs()
      requires Valid()
      ensures PoolSize() == |PoolOf(mm.pools, pf, mm.State().frames)| * PAGE_SIZE
    {
      hide Settled, Backed, Own, BitsOf;
      SoundFits(mm.pools, mm.State());
    }

    /** For a block of this size the heap needs pages: there is none at hand. */
    ghost predicate Draws(size: nat)
      reads this
    {
      0 < size < PoolSize() && (size > 1024 || (|lists| == DESC_CNT && forall k: nat :: ClassOf(size, k) ==> lists[k] == []))
    }

    /** sys_malloc: a block that was not handed out, or 0 when the size is 0 or not below the pool's or pages are needed and
        cannot be had. */
    method SysMalloc(size: nat) returns (ptr: nat)
      requires Valid()
      requires Draws(size) ==> TableRoom(mm.pools, mm.State(), pf, PagesFor(size))
      modifies mm`mem, mm.bits, mm.userVaddr.bits, acc, this
      ensures Valid() && Drew(old(mm.State()), mm.State(), old(owner).Keys, owner.Keys, old(acc.pages), acc.pages)
      ensures old(acc.tables) <= acc.tables && (pf == PF_KERNEL ==> acc.tables == old(acc.tables))
      ensures ptr == 0 <==>
              || !(0 < size < PoolSize())
              || (old(Draws(size)) && !CanMap(mm.pools, old(mm.State()), pf, PagesFor(size)))
      ensures ptr == 0 ==> H() == old(H()) && acc.intact == (old(acc.intact) && mm.State() == old(mm.State()))
      ensures ptr != 0 ==> ptr !in old(live) && live == old(live)[ptr := size] && acc.intact == old(acc.intact)
      ensures ptr != 0 && size > 1024 ==> ptr == ArenaOf(ptr) * PAGE_SIZE + HEADER && owner == Claimed(old(owner), ArenaOf(ptr), PagesFor(size))
      ensures ptr != 0 && size <= 1024 && !old(Draws(size)) ==> owner == old(owner)
    {
      hide Own, Backed, Spared, Drew, GaveBack, CanMap, CountClear, PoolOf, HeapOk, TableRoom, Allocator.PagesOk;
      SettledLists(H());
      NothingYet();
      ptr := 0;
      if !(size > 0 && size < PoolSize()) {
        return;
      }
      if size > 1024 {
        ptr := LargeBlock(size);
      } else {
        ptr := SmallBlock(size);
      }
    }

    /** sys_malloc for sizes that take whole pages */
    method LargeBlock(size: nat) returns (ptr: nat)
      requires Valid() && size > 1024 && TableRoom(mm.pools, mm.State(), pf, PagesFor(size))
      modifies mm`mem, mm.bits, mm.userVaddr.bits, acc, this
      ensures Valid() && Drew(old(mm.State()), mm.State(), old(owner).Keys, owner.Keys, old(acc.pages), acc.pages)
      ensures old(acc.tables) <= acc.tables && (pf == PF_KERNEL ==> acc.tables == old(acc.tables))
      ensures ptr == 0 <==> !CanMap(mm.pools, old(mm.State()), pf, PagesFor(size))
      ensures ptr == 0 ==> H() == old(H()) && acc.intact == (old(acc.intact) && mm.State() == old(mm.State()))
      ensures ptr != 0 ==> ptr !in old(live) && live == old(live)[ptr := size] && acc.intact == old(acc.intact)
      ensures ptr != 0 ==> ptr == ArenaOf(ptr) * PAGE_SIZE + HEADER && owner == Claimed(old(owner), ArenaOf(ptr), PagesFor(size))
    {
      hide Own, Backed, Spared, Drew, GaveBack, CanMap, CountClear, PoolOf, HeapOk, TableRoom, Allocator.PagesOk, Settled, Claimed, ArenaOf;
      ptr := 0;
      var pageCnt := (size + HEADER + PAGE_SIZE - 1) / PAGE_SIZE;
      assert pageCnt == PagesFor(size);
      hide Allocator.PagesFor;
      var a, page := TakePages(pageCnt);
      if a != 0 {
        NewLargeSettles(old(H()), page, pageCnt, size);
        arenas := arenas[ArenaOf(a) := Arena(-1, pageCnt, true)];
        live := live[page * PAGE_SIZE + HEADER := size];
        ptr := a + HEADER;
      }
    }

    /** sys_malloc for sizes that arenas serve */
    method SmallBlock(size: nat) returns (ptr: nat)
      requires Valid() && 0 < size <= 1024
      requires (forall k: nat :: ClassOf(size, k) ==> lists[k] == []) ==> TableRoom(mm.pools, mm.State(), pf, 1)
      modifies mm`mem, mm.bits, mm.userVaddr.bits, acc, this
      ensures Valid() && Drew(old(mm.State()), mm.State(), old(owner).Keys, owner.Keys, old(acc.pages), acc.pages)
      ensures old(acc.tables) <= acc.tables && (pf == PF_KERNEL ==> acc.tables == old(acc.tables))
      ensures ptr == 0 <==>
              && (forall k: nat :: ClassOf(size, k) ==> old(lists)[k] == [])
              && !CanMap(mm.pools, old(mm.State()), pf, 1)
      ensures ptr == 0 ==> H() == old(H()) && acc.intact == (old(acc.intact) && mm.State() == old(mm.State()))
      ensures ptr != 0 ==> ptr !in old(live) && live == old(live)[ptr := size] && acc.intact == old(acc.intact)
      ensures !(forall k: nat :: ClassOf(size, k) ==> old(lists)[k] == []) ==> owner == old(owner)
    {
      hide Own, Backed, Spared, Drew, GaveBack, CanMap, CountClear, PoolOf, HeapOk, Allocator.PagesOk, ListsFit;
      NothingYet();
      SettledLists(H());
      var aIdx := FindClass(size);
      if |lists[aIdx]| == 0 {
        var ok, page := FillList(aIdx);
        if !ok {
          return 0;
        }
        NewArenaFirst(old(H()), page, aIdx);
      }
      ptr := PopBlock(aIdx, size);
    }

    /** sys_malloc's making of an arena, whose blocks fill an empty free list */
    method FillList(k: nat) returns (ok: bool, ghost page: nat)
      requires Valid() && k < DESC_CNT && |lists| == DESC_CNT && lists[k] == []
      requires TableRoom(mm.pools, mm.State(), pf, 1)
      modifies mm`mem, mm.bits, mm.userVaddr.bits, acc, this
      ensures PagesOk() && Drew(old(mm.State()), mm.State(), old(owner).Keys, owner.Keys, old(acc.pages), acc.pages)
      ensures old(acc.tables) <= acc.tables && (pf == PF_KERNEL ==> acc.tables == old(acc.tables))
      ensures (ok <==> CanMap(mm.pools, old(mm.State()), pf, 1))
      ensures !ok ==> H() == old(H()) && acc.intact == (old(acc.intact) && mm.State() == old(mm.State()))
      ensures ok ==> page !in old(owner) && H() == NewArena(old(H()), page, k) && acc.intact == old(acc.intact)
    {
      hide Own, Backed, Spared, Drew, GaveBack, CanMap, CountClear, PoolOf, HeapOk, Allocator.PagesOk, ListsFit, Settled;
      var a;
      a, page := TakePages(1);
      if a == 0 {
        return false, page;
      }
      arenas := arenas[ArenaOf(a) := Arena(k, PerArena(k), false)];
      var free := Sliced(ArenaOf(a), k);
      lists := lists[k := free];
      return true, page;
    }

    /** sys_malloc's list_pop */
    method PopBlock(k: nat, size: nat) returns (ptr: nat)
      requires PagesOk() && HeapOk(H()) && |lists| == DESC_CNT && k < DESC_CNT && |lists[k]| > 0 && 0 < size <= BlockSize(k)
      requires forall p: nat :: Small(H(), p) && p != ArenaOf(lists[k][0]) ==> arenas[p].cnt < PerArena(arenas[p].desc)
      modifies this`lists, this`arenas, this`live
      ensures Valid() && ptr == old(lists)[k][0] && ptr != 0 && ptr !in old(live) && live == old(live)[ptr := size]
    {
      hide Own, Backed, Spared, Drew, GaveBack, HeapOk, Allocator.PagesOk, Settled;
      TakeSettles(H(), k, size);
      var b := lists[k][0];
      NotNull(H(), k, b);
      lists := lists[k := lists[k][1..]];
      arenas := arenas[ArenaOf(b) := arenas[ArenaOf(b)].(cnt := arenas[ArenaOf(b)].cnt - 1)];
      live := live[b := size];
      ptr := b;
    }

    /** sys_free */
    method SysFree(ptr: nat)
      requires Valid() && ptr in live
      modifies mm`mem, mm.bits, mm.userVaddr.bits, acc`pages, this
      ensures Valid() && GaveBack(old(mm.State()), mm.State(), old(owner).Keys, owner.Keys, old(acc.pages), acc.pages)
      ensures live == old(live) - {ptr}
    {
      hide Own, Backed, Spared, Drew, GaveBack, HeapOk, Allocator.PagesOk, IsBlock, ListsFit, Settled;
      NothingYet();
      ghost var h := H();
      LiveKind(h, ptr);
      var page := ArenaOf(ptr);
      var a := arenas[page];
      if a.large && a.desc == -1 {
        FreeLargeOk(h, page);
        GivePages(page, a.cnt);
        arenas := arenas - {page};
        live := live - {ptr};
      } else {
        FreeSmallOk(h, ptr);
        lists := lists[a.desc := lists[a.desc] + [ptr]];
        live := live - {ptr};
        arenas := arenas[page := a.(cnt := a.cnt + 1)];
        assert H() == Put(h, ptr);
        if a.cnt + 1 == PerArena(a.desc) {
          DropArena(page);
        }
      }
    }

    /** The end of sys_free for an arena that is wholly free. */
    method DropArena(page: nat)
      requires PagesOk() && HeapOk(H()) && Small(H(), page) && arenas[page].cnt == PerArena(arenas[page].desc)
      requires forall p: nat :: Small(H(), p) && p != page ==> arenas[p].cnt < PerArena(arenas[p].desc)
      modifies mm`mem, mm.bits, mm.userVaddr.bits, acc`pages, this
      ensures Valid() && GaveBack(old(mm.State()), mm.State(), old(owner).Keys, owner.Keys, old(acc.pages), acc.pages)
      ensures live == old(live)
    {
      hide Own, Backed, Spared, Drew, GaveBack, HeapOk, Allocator.PagesOk, IsBlock, Distinct, Settled;
      ghost var h := H();
      HeapLists(h);
      var k := arenas[page].desc;
      FullList(h, page);
      var rest := RemoveBlocks(lists[k], page, k);
      DropSettles(h, page, rest);
      GivePages(page, 1);
      lists := lists[k := rest];
      arenas := arenas - {page};
    }
  }

  /** sys_malloc's loop over the blocks of a new arena */
  method Sliced(page: nat, k: nat) returns (free: seq<nat>)
    requires k < DESC_CNT
    ensures free == Blocks(page, k, PerArena(k))
  {
    hide Block;
    free := [];
    for bIdx := 0 to PerArena(k)
      invariant free == Blocks(page, k, bIdx)
    {
      assert Blocks(page, k, bIdx + 1) == Blocks(page, k, bIdx) + [Block(page, k, bIdx)];
      free := free + [Block(page, k, bIdx)];
    }
  }

  /** list_remove of an element that is on the list */
  method ListRemove(q: seq<nat>, x: nat) returns (rest: seq<nat>)
    requires Distinct(q) && x in q
    ensures Distinct(rest) && forall b :: b in rest <==> b in q && b != x
  {
    var i := 0;
    while q[i] != x
      invariant 0 <= i < |q| && x in q[i..]
      decreases |q| - i
    {
      i := i + 1;
    }
    rest := q[..i] + q[i + 1..];
    assert q == q[..i] + [x] + q[i + 1..];
  }

  /** sys_free's loop over the blocks of an arena, each of which it finds on the list and removes */
  method RemoveBlocks(q: seq<nat>, p: nat, k: nat) returns (rest: seq<nat>)
    requires k < DESC_CNT && Distinct(q) && forall b :: b in q ==> IsBlock(b, k)
    requires forall i: nat :: i < PerArena(k) ==> Block(p, k, i) in q
    ensures Without(q, rest, p)
  {
    hide Block, IdxOf;
    rest := q;
    for i := 0 to PerArena(k)
      invariant Distinct(rest) && forall b :: b in rest <==> b in q && !(ArenaOf(b) == p && IdxOf(b, k) < i)
    {
      BlockInverse(p, k, i);
      assert Block(p, k, i) in rest;
      rest := ListRemove(rest, Block(p, k, i));
    }
  }

  lemma NewArenaFirst(h: Heap, p: nat, k: nat)
    requires Settled(h) && p !in h.owner && k < DESC_CNT && |h.lists| == DESC_CNT && h.lists[k] == []
    ensures var h' := NewArena(h, p, k);
            && HeapOk(h') && |h'.lists| == DESC_CNT && |h'.lists[k]| > 0 && ArenaOf(h'.lists[k][0]) == p
            && forall q: nat :: Small(h', q) && q != p ==> h'.arenas[q].cnt < PerArena(h'.arenas[q].desc)
  {
    NewArenaOk(h, p, k);
    BlockInverse(p, k, 0);
    hide HeapOk;
  }

  lemma NotNull(h: Heap, k: nat, b: nat)
    requires HeapOk(h) && k < DESC_CNT && b in h.lists[k]
    ensures b > 0
  {
    FreeExtent(h, k, b);
  }

  lemma LiveKind(h: Heap, ptr: nat)
    requires Settled(h) && ptr in h.live
    ensures HeapOk(h) && ArenaOf(ptr) in h.arenas
    ensures Small(h, ArenaOf(ptr)) || (Large(h, ArenaOf(ptr)) && ptr == ArenaOf(ptr) * PAGE_SIZE + HEADER)
  {
    LiveExtent(h, ptr);
  }

  lemma FreeLargeOk(h: Heap, p: nat)
    requires Settled(h) && Large(h, p)
    ensures Settled(DropLarge(h, p, h.arenas[p].cnt))
    ensures forall q :: p <= q < p + h.arenas[p].cnt ==> q in h.owner
  {
    DropLargeOk(h, p);
    HeapLists(h);
    forall q | p <= q < p + h.arenas[p].cnt
      ensures q in h.owner
    {
      assert Covers(h.arenas, p, q);
    }
  }

  lemma FreeSmallOk(h: Heap, b: nat)
    requires Settled(h) && b in h.live && Small(h, ArenaOf(b))
    ensures HeapOk(Put(h, b)) && |h.lists| == DESC_CNT && Small(Put(h, b), ArenaOf(b))
    ensures h.arenas[ArenaOf(b)].cnt + 1 <= PerArena(h.arenas[ArenaOf(b)].desc)
    ensures forall p: nat :: Small(Put(h, b), p) && p != ArenaOf(b) ==> Put(h, b).arenas[p].cnt < PerArena(Put(h, b).arenas[p].desc)
    ensures h.arenas[ArenaOf(b)].cnt + 1 < PerArena(h.arenas[ArenaOf(b)].desc) ==> Settled(Put(h, b))
  {
    PutOk(h, b);
    hide HeapOk;
  }

  /** The blocks of a wholly free arena are all found on the list. */
  lemma FullList(h: Heap, p: nat)
    requires HeapOk(h) && Small(h, p) && h.arenas[p].cnt == PerArena(h.arenas[p].desc)
    ensures forall i: nat :: i < PerArena(h.arenas[p].desc) ==> Block(p, h.arenas[p].desc, i) in h.lists[h.arenas[p].desc]
    ensures p in h.owner && |h.lists| == DESC_CNT
    ensures Distinct(h.lists[h.arenas[p].desc]) && forall b :: b in h.lists[h.arenas[p].desc] ==> IsBlock(b, h.arenas[p].desc)
  {
    assert SmallOk(h, p);
    AllFree(h, p);
    assert Covers(h.arenas, p, p);
  }

  lemma DropSettles(h: Heap, p: nat, rest: seq<nat>)
    requires HeapOk(h) && Small(h, p) && h.arenas[p].cnt == PerArena(h.arenas[p].desc)
    requires forall q: nat :: Small(h, q) && q != p ==> h.arenas[q].cnt < PerArena(h.arenas[q].desc)
    requires Without(h.lists[h.arenas[p].desc], rest, p)
    ensures Settled(Drop(h, p, rest))
  {
    DropOk(h, p, rest);
    hide HeapOk;
  }

  lemma SettledLists(h: Heap)
    requires Settled(h)
    ensures |h.lists| == DESC_CNT && HeapOk(h)
  {
  }

  /** The arena that gives the block is not wholly free afterwards. */
  lemma TakeSettles(h: Heap, k: nat, size: nat)
    requires HeapOk(h) && k < DESC_CNT && |h.lists[k]| > 0 && 0 < size <= BlockSize(k)
    requires forall p: nat :: Small(h, p) && p != ArenaOf(h.lists[k][0]) ==> h.arenas[p].cnt < PerArena(h.arenas[p].desc)
    ensures ArenaOf(h.lists[k][0]) in h.arenas && h.arenas[ArenaOf(h.lists[k][0])].cnt > 0
    ensures h.lists[k][0] !in h.live && Settled(Take(h, k, size))
  {
    var p := ArenaOf(h.lists[k][0]);
    TakeOk(h, k, size);
    HeapLists(h);
    FreeExtent(h, k, h.lists[k][0]);
    assert SmallOk(h, p);
    AllFree(h, p);
    hide HeapOk, SmallOk, ListsFit, IsBlock;
  }
}
