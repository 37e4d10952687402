/** The kernel's heap and a process's, over one memory manager. */
module Heaps {
  import opened Memory
  import opened Books
  import opened Arenas

  class TwoHeaps {
    const acc: Account
    const kernel: Allocator
    const process: Allocator
    /** No call has been for the process's heap. */
    ghost var kernelOnly: bool

    constructor (mm: Manager)
      requires mm.Valid()
      ensures Valid() && acc.mm == mm && acc.base == mm.State() && acc.intact && fresh(acc) && fresh(kernel) && fresh(process)
      ensures kernel.live == map[] && process.live == map[] && kernelOnly
    {
      var a := new Account(mm);
      var k := new Allocator(a, PF_KERNEL);
      var p := new Allocator(a, PF_USER);
      acc, kernel, process, kernelOnly := a, k, p, true;
    }

    /** Both heaps are in order, no page is in both, and no one else has any; page tables have been made for the process only. */
    ghost predicate Valid()
      reads this, acc, acc.mm, acc.mm.bits, acc.mm.userVaddr.bits, kernel, kernel.acc, kernel.acc.mm, kernel.mm, kernel.mm.bits
      reads kernel.mm.userVaddr.bits, process, process.acc, process.acc.mm, process.mm, process.mm.bits, process.mm.userVaddr.bits
    {
      && kernel != process && kernel.acc == process.acc == acc && kernel.pf == PF_KERNEL && process.pf == PF_USER
      && kernel.Valid() && process.Valid()
      && kernel.owner.Keys !! process.owner.Keys && acc.pages == kernel.owner.Keys + process.owner.Keys
      && (kernelOnly ==> acc.tables == {})
    }

    /** The heap of the running thread */
    function HeapOf(inKernel: bool): Allocator {
      if inKernel then kernel else process
    }

    /** sys_malloc of one heap leaves the other in order. It returns 0 if and only if the size is 0 or not below the pool's or
        pages are needed and cannot be mapped, and only then, if frames have been used up midway, the account is not intact. */
    method SysMalloc(inKernel: bool, size: nat) returns (ptr: nat)
      requires Valid()
      requires var h := HeapOf(inKernel); h.Draws(size) ==> TableRoom(h.mm.pools, h.mm.State(), h.pf, h.PagesFor(size))
      modifies acc.mm`mem, acc.mm.bits, acc.mm.userVaddr.bits, acc, HeapOf(inKernel), this`kernelOnly
      ensures Valid() && HeapOf(!inKernel).live == old(HeapOf(!inKernel).live) && kernelOnly == (inKernel && old(kernelOnly))
      ensures var h := HeapOf(inKernel);
              ptr == 0 <==>
              || !(0 < size < h.PoolSize())
              || (old(h.Draws(size)) && !CanMap(acc.mm.pools, old(acc.mm.State()), h.pf, h.PagesFor(size)))
      ensures ptr != 0 ==> ptr !in old(HeapOf(inKernel).live) && HeapOf(inKernel).live == old(HeapOf(inKernel).live)[ptr := size]
      ensures ptr != 0 ==> acc.intact == old(acc.intact)
      ensures ptr == 0 ==> HeapOf(inKernel).live == old(HeapOf(inKernel).live)
      ensures ptr == 0 ==> acc.intact == (old(acc.intact) && acc.mm.State() == old(acc.mm.State()))
    {
      hide Settled, Backed, Spared, Own, Sound, CanMap, TableRoom, ClassOf, Tables, MoreTables, Drew, Allocator.Draws, Allocator.PagesFor, Allocator.PoolSize, Claimed, ArenaOf;
      var h, other := HeapOf(inKernel), HeapOf(!inKernel);
      ghost var s, had, pages := acc.mm.State(), h.owner.Keys, acc.pages;
      ptr := h.SysMalloc(size);
      kernelOnly := kernelOnly && inKernel;
      DrawnApart(s, acc.mm.State(), had, h.owner.Keys, pages, acc.pages, other.pf, other.owner);
      other.Undisturbed({});
    }

    /** And so does sys_free. */
    method SysFree(inKernel: bool, ptr: nat)
      requires Valid() && ptr in HeapOf(inKernel).live
      modifies acc.mm`mem, acc.mm.bits, acc.mm.userVaddr.bits, acc`pages, HeapOf(inKernel)
      ensures Valid() && HeapOf(!inKernel).live == old(HeapOf(!inKernel).live)
      ensures HeapOf(inKernel).live == old(HeapOf(inKernel).live) - {ptr}
    {
      hide Settled, Backed, Spared, Own, Sound;
      var h, other := HeapOf(inKernel), HeapOf(!inKernel);
      ghost var s, had, pages := acc.mm.State(), h.owner.Keys, acc.pages;
      h.SysFree(ptr);
      GivenApart(s, acc.mm.State(), had, h.owner.Keys, pages, acc.pages, other.owner.Keys);
      other.Undisturbed(had - h.owner.Keys);
    }

    /** After any calls on the two heaps, of which no malloc_page failed midway and after which every block of both has been
        freed, the addresses, the mappings and the user pool's frames are what they were at first; the kernel pool's too, but
        for those that hold a page table made meanwhile; and all of them, if all calls were for the kernel's heap. */
    lemma Conserved()
      requires Valid() && acc.intact && kernel.live == map[] && process.live == map[]
      ensures kernel.arenas == map[] && process.arenas == map[]
      ensures acc.mm.State().kv == acc.base.kv && acc.mm.State().uv == acc.base.uv
      ensures forall p: nat :: Mapping(acc.mm.State(), p) == Mapping(acc.base, p)
      ensures FramesBack(acc.mm.pools, acc.base, acc.mm.State())
      ensures kernelOnly ==> acc.mm.State().frames == acc.base.frames
    {
      hide Own, Mapping, Sound, Backed, FramesBack;
      HeapConserved(acc.mm.pools, acc.base, acc.mm.State(), kernel.H(), process.owner.Keys, acc.tables);
      assert process.owner.Keys + {} == process.owner.Keys;
      HeapConserved(acc.mm.pools, acc.base, acc.mm.State(), process.H(), {}, acc.tables);
    }
  }

  lemma DrawnApart(s: Vm, t: Vm, had: set<nat>, has: set<nat>, pages: set<nat>, pages': set<nat>, pf: PoolFlag, others: map<nat, nat>)
    requires Drew(s, t, had, has, pages, pages') && Backed(s, pf, others) && had !! others.Keys && pages == had + others.Keys
    ensures has !! others.Keys && pages' == has + others.Keys && Spared(s, t, {})
  {
    hide Mapping, Spared;
  }

  lemma GivenApart(s: Vm, t: Vm, had: set<nat>, has: set<nat>, pages: set<nat>, pages': set<nat>, others: set<nat>)
    requires GaveBack(s, t, had, has, pages, pages') && had !! others && pages == had + others
    ensures has !! others && pages' == has + others && Spared(s, t, had - has) && others !! (had - has)
  {
    hide Spared;
  }
}
