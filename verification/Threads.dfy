/** The variables of thread/thread.c and kernel/sync.c: every thread has one general_tag, and the ready list and the waiters
    of each semaphore are linked lists of these tags. */
module Threads {
  import opened Words
  import opened Lists
  import opened Scheduling

  /** The places where the kernel keeps a list of general_tags */
  datatype Queue = ReadyQueue | WaitersOf(l: LockId)

  /** `struct lock` and its semaphore, but for the list */
  datatype LockVars = LockVars(value: nat, holder: Option<Tid>, repeat: nat)

  /** A state in which one of the lists is another. */
  ghost function WithLine(s: State, q: Queue, line: seq<Tid>): State
    requires q.WaitersOf? ==> q.l in s.locks
  {
    match q
    case ReadyQueue => s.(ready := line)
    case WaitersOf(l) => WithLock(s, l, s.locks[l].(waiters := line))
  }

  /** Thread t is on none of the lists. */
  ghost predicate Off(s: State, t: Tid) {
    t !in s.ready && forall l :: l in s.locks ==> t !in s.locks[l].waiters
  }

  /** list_init for the ready list and lock_init for n locks */
  method NewQueues(n: nat) returns (qs: map<Queue, List>, vars: map<LockId, LockVars>)
    ensures ReadyQueue in qs && (forall l :: l in vars <==> WaitersOf(l) in qs) && Apart(qs)
    ensures forall l: LockId :: l in vars <==> l < n
    ensures forall l :: l in vars ==> vars[l] == LockVars(1, None, 0)
    ensures forall q :: q in qs ==> fresh(qs[q]) && qs[q].elems == [] && fresh(qs[q].head) && fresh(qs[q].tail)
  {
    hide Linked, Apart, Members;
    var ready := new List();
    qs, vars := map[ReadyQueue := ready], map[];
    OneList(ReadyQueue, ready);
    for l := 0 to n
      invariant ReadyQueue in qs && (forall j :: j in vars <==> WaitersOf(j) in qs) && Apart(qs)
      invariant forall j: LockId :: j in vars <==> j < l
      invariant forall j :: j in vars ==> vars[j] == LockVars(1, None, 0)
      invariant forall q :: q in qs ==> fresh(qs[q]) && qs[q].elems == [] && fresh(qs[q].head) && fresh(qs[q].tail)
    {
      ghost var members := Members(qs);
      assert allocated(members) && forall e :: e in members ==> allocated(e);
      var waiters := new List();
      assert Members(qs) == members;
      assert waiters.Chain() == [waiters.head, waiters.tail];
      OneMore(qs, WaitersOf(l), waiters);
      qs, vars := qs[WaitersOf(l) := waiters], vars[l := LockVars(1, None, 0)];
    }
  }

  /** The main thread runs, the others are ready. */
  function AtFirst(main: Tid, queued: seq<Tid>): map<Tid, Thread> {
    map t | t in [main] + queued :: Thread(if t == main then Running else Ready, Outside, multiset{})
  }

  lemma AtFirstKeys(main: Tid, queued: seq<Tid>)
    ensures AtFirst(main, queued).Keys == set t | t in [main] + queued
  {
  }

  /** A tag for each thread */
  method NewTags(ts: seq<Tid>) returns (elems: map<Tid, Elem>)
    ensures elems.Keys == (set t | t in ts) && forall t :: t in elems ==> fresh(elems[t]) && elems[t].entry == t
  {
    elems := map[];
    for i := 0 to |ts|
      invariant forall t :: t in elems <==> t in ts[..i]
      invariant forall t :: t in elems ==> fresh(elems[t]) && elems[t].entry == t
    {
      var tag := new Elem(ts[i]);
      elems := elems[ts[i] := tag];
    }
  }

  class Kernel {
    var threads: map<Tid, Thread>
    var tags: map<Tid, Elem>
    var cur: Tid
    var locks: map<LockId, LockVars>
    const queues: map<Queue, List>
    const idle: Tid

    ghost predicate Shape()
      reads this`locks
    {
      ReadyQueue in queues && forall l :: l in locks <==> WaitersOf(l) in queues
    }

    /** The threads on a list, in the order of its links */
    ghost function Line(q: Queue): (line: seq<Tid>)
      requires q in queues
      reads queues.Values
    {
      Entries(queues[q].elems)
    }

    /** The abstract state */
    ghost function S(): State
      requires Shape()
      reads this, queues.Values
    {
      State(threads, Line(ReadyQueue), cur,
            map l | l in locks :: LockOf(l), idle)
    }

    ghost function LockOf(l: LockId): Lock
      requires Shape() && l in locks
      reads this`locks, queues.Values
    {
      Lock(locks[l].value, Line(WaitersOf(l)), locks[l].holder, locks[l].repeat)
    }

    /** Each thread's tag is its own, and the lists consist of such tags. */
    ghost predicate Tagged()
      reads this`threads, this`tags, queues.Values
    {
      && (forall t :: t in threads ==> t in tags)
      && (forall t :: t in tags ==> tags[t].entry == t)
      && (forall q, e :: q in queues && e in queues[q].elems ==> e.entry in tags && tags[e.entry] == e)
      && (forall q, t :: q in queues && t in tags ==> tags[t] != queues[q].head && tags[t] != queues[q].tail)
    }

    ghost predicate Valid()
      reads this`threads, this`tags, this`locks, queues.Values, Members(queues)
    {
      Shape() && Tagged() && Apart(queues)
    }

    /** The lists, their sentinels and the tags */
    ghost function Parts(): set<object>
      reads this`tags
    {
      (set q | q in queues :: queues[q]) + (set t | t in tags :: tags[t]) +
      (set q | q in queues :: queues[q].head) + (set q | q in queues :: queues[q].tail)
    }

    /** thread_init, once the pools exist: the main thread runs, the others, init before the idle one, are queued in this
        order, and lock_init has set up n locks. */
    constructor (main: Tid, idle: Tid, queued: seq<Tid>, n: nat)
      requires idle in queued && main !in queued && Distinct(queued)
      ensures Valid() && Inv(S()) && fresh(Parts())
      ensures cur == main && this.idle == idle && Line(ReadyQueue) == queued && threads == AtFirst(main, queued)
      ensures forall l: LockId :: l in locks <==> l < n
    {
      hide Apart, Linked, Members, Entries, Inv, AtFirst, Distinct;
      AtFirstKeys(main, queued);
      var elems := NewTags([main] + queued);
      var qs, vars := NewQueues(n);
      ghost var members := Members(qs);
      assert allocated(members) && forall e :: e in members ==> allocated(e);
      this.idle, cur, queues := idle, main, qs;
      tags := elems;
      locks := vars;
      threads := AtFirst(main, queued);
      new;
      assert Tagged() && fresh(Parts());
      Start(queued);
    }

    /** The threads are put on the ready list, one after the other. */
    method Start(queued: seq<Tid>)
      requires Valid() && idle in queued && cur !in queued && Distinct(queued) && Line(ReadyQueue) == []
      requires threads == AtFirst(cur, queued)
      requires forall l :: l in locks ==> locks[l] == LockVars(1, None, 0) && Line(WaitersOf(l)) == []
      modifies Parts()
      ensures Valid() && Inv(S()) && Parts() == old(Parts()) && unchanged(this) && Line(ReadyQueue) == queued
    {
      hide Apart, Tagged, Parts, Inv, Entries;
      ghost var s := S();
      assert forall l :: l in locks ==> s.locks[l] == LockOf(l);
      assert queued[..0] == [];
      for i := 0 to |queued|
        invariant Valid() && Parts() == old(Parts()) && unchanged(this) && S() == s.(ready := queued[..i])
      {
        Owns(queued[i]);
        assert Off(S(), queued[i]);
        Append(ReadyQueue, queued[i]);
        assert queued[..i + 1] == queued[..i] + [queued[i]];
      }
      assert queued[..|queued|] == queued;
      InvInitially(S());
    }

    lemma LinesOf(t: Tid)
      requires Shape()
      ensures Off(S(), t) <==> forall q :: q in queues ==> t !in Line(q)
    {
      hide Entries;
      var s := S();
      forall l | l in s.locks
        ensures s.locks[l].waiters == Line(WaitersOf(l))
      {
        assert s.locks[l] == LockOf(l);
      }
      forall q | q in queues
        ensures q == ReadyQueue || q.l in s.locks
      {
      }
    }

    lemma TagOffLists(t: Tid)
      requires Valid() && t in tags && Off(S(), t)
      ensures tags[t] !in Members(queues) && forall q :: q in queues ==> tags[t] !in queues[q].Chain()
    {
      hide Apart;
      LinesOf(t);
      forall q | q in queues
        ensures tags[t] !in queues[q].elems
      {
        EntryIn(queues[q].elems, tags[t]);
        assert t !in Line(q);
      }
    }

    /** What changing one list does: the others, and the threads and locks, are as they were. */
    twostate predicate OnlyList(q: Queue)
      reads this, queues.Values
    {
      unchanged(this) && forall r :: r in queues && r != q ==> unchanged(queues[r])
    }

    twostate lemma LineChanged(q: Queue)
      requires old(Shape()) && q in queues && OnlyList(q)
      ensures Shape() && S() == WithLine(old(S()), q, Line(q))
    {
      hide Entries;
      assert forall r :: r in queues && r != q ==> Line(r) == old(Line(r));
      var m := WithLine(old(S()), q, Line(q)).locks;
      forall l | l in locks
        ensures LockOf(l) == m[l]
      {
        assert old(S()).locks[l] == old(LockOf(l));
      }
      LocksAre(m);
    }

    twostate lemma StillTagged(q: Queue)
      requires old(Tagged()) && q in queues && OnlyList(q)
      requires forall e :: e in queues[q].elems ==> e in old(queues[q].elems) || (e.entry in tags && tags[e.entry] == e)
      ensures Tagged()
    {
    }

    /** The elements of the other lists */
    ghost function Others(q: Queue): set<Elem>
      reads queues.Values
    {
      set r, e | r in queues && r != q && e in queues[r].Chain() :: e
    }

    /** A change to one list that adds to it only elements that were on none keeps them all in order and apart. */
    twostate lemma StillApart(q: Queue)
      requires old(Apart(queues)) && q in queues && queues[q].Valid() && OnlyList(q)
      requires forall e :: e in queues[q].Chain() ==> e in old(queues[q].Chain()) || e !in old(Members(queues))
      requires forall e :: e in old(Others(q)) ==> e.next == old(e.next) && e.prev == old(e.prev)
      ensures Apart(queues)
    {
      forall r | r in queues
        ensures queues[r].Valid()
      {
        if r != q {
          LinkedStill(queues[r].Chain());
        }
      }
      forall i, j, e | i in queues && j in queues && i != j && e in queues[i].Chain()
        ensures e !in queues[j].Chain()
      {
        assert i != q ==> e in old(queues[i].Chain());
        assert j != q ==> queues[j].Chain() == old(queues[j].Chain());
      }
    }

    lemma Elsewhere(q: Queue)
      requires Apart(queues) && q in queues
      ensures queues[q].Valid() && forall r :: r in queues && r != q ==> queues[r] != queues[q]
      ensures forall e :: e in Others(q) ==> e !in queues[q].Chain() && e in Members(queues)
    {
    }

    lemma PartsHold(q: Queue, t: Tid)
      requires Tagged() && q in queues && t in tags
      ensures queues[q] in Parts() && tags[t] in Parts()
      ensures forall e :: e in queues[q].Chain() ==> e in Parts()
    {
      forall e | e in queues[q].elems
        ensures e in tags.Values
      {
        assert tags[e.entry] == e;
      }
    }

    lemma TagHas(t: Tid)
      requires Tagged() && t in tags
      ensures tags[t].entry == t
    {
    }

    /** What a change of one list needs to know about the others before it */
    lemma BeforeChange(q: Queue, t: Tid)
      requires Valid() && q in queues && t in tags
      ensures queues[q].Valid() && tags[t].entry == t && queues[q] in Parts() && tags[t] in Parts()
      ensures forall e :: e in queues[q].Chain() ==> e in Parts()
      ensures forall r :: r in queues && r != q ==> queues[r] != queues[q]
      ensures forall e :: e in Others(q) ==> e !in queues[q].Chain() && e in Members(queues)
      ensures Entries(queues[q].elems + [tags[t]]) == Line(q) + [t] && Entries([tags[t]] + queues[q].elems) == [t] + Line(q)
    {
      hide Entries, Others, Members, Apart, Tagged, Linked;
      TagHas(t);
      Elsewhere(q);
      PartsHold(q, t);
      EntriesAround(queues[q].elems, tags[t]);
    }

    /** list_append of a thread's tag, which is on no list */
    method Append(q: Queue, t: Tid)
      requires Valid() && q in queues && t in tags && Off(S(), t)
      modifies Parts()
      ensures Valid() && Parts() == old(Parts()) && unchanged(this)
      ensures S() == WithLine(old(S()), q, old(Line(q)) + [t])
    {
      hide Linked, Tagged, Apart, Entries, Members, Parts, Others;
      TagOffLists(t);
      BeforeChange(q, t);
      ghost var others := Others(q);
      assert allocated(others) && forall e :: e in others ==> allocated(e);
      queues[q].Append(tags[t]);
      StillApart(q);
      StillTagged(q);
      LineChanged(q);
    }

    /** list_push */
    method Push(q: Queue, t: Tid)
      requires Valid() && q in queues && t in tags && Off(S(), t)
      modifies Parts()
      ensures Valid() && Parts() == old(Parts()) && unchanged(this)
      ensures S() == WithLine(old(S()), q, [t] + old(Line(q)))
    {
      hide Linked, Tagged, Apart, Entries, Members, Parts, Others;
      TagOffLists(t);
      BeforeChange(q, t);
      ghost var others := Others(q);
      assert allocated(others) && forall e :: e in others ==> allocated(e);
      queues[q].Push(tags[t]);
      StillApart(q);
      StillTagged(q);
      LineChanged(q);
    }

    /** elem2entry of list_pop: the thread is on no list any more. */
    method Pop(q: Queue) returns (t: Tid)
      requires Valid() && q in queues && |Line(q)| > 0
      modifies Parts()
      ensures Valid() && Parts() == old(Parts()) && unchanged(this)
      ensures t == old(Line(q)[0]) && t in tags && Off(S(), t)
      ensures S() == WithLine(old(S()), q, old(Line(q))[1..])
    {
      hide Linked, Tagged, Apart, Entries, Members, Parts, Others;
      FirstTag(q);
      BeforeChange(q, queues[q].elems[0].entry);
      ghost var others := Others(q);
      assert allocated(others) && forall e :: e in others ==> allocated(e);
      var elem := queues[q].Pop();
      t := elem.entry;
      StillApart(q);
      StillTagged(q);
      LineChanged(q);
      OthersSame(q);
      NowOffLists(q, t);
    }

    lemma FirstTag(q: Queue)
      requires Tagged() && q in queues && |queues[q].elems| > 0
      ensures var e := queues[q].elems[0];
              && e.entry in tags && tags[e.entry] == e && Entries(queues[q].elems) == [e.entry] + Entries(queues[q].elems[1..])
    {
      assert queues[q].elems[0] in queues[q].elems;
      assert queues[q].elems == [queues[q].elems[0]] + queues[q].elems[1..];
      EntriesAround(queues[q].elems[1..], queues[q].elems[0]);
    }

    twostate lemma OthersSame(q: Queue)
      requires q in queues && OnlyList(q)
      ensures Others(q) == old(Others(q))
    {
      assert forall r :: r in queues && r != q ==> queues[r].Chain() == old(queues[r].Chain());
    }

    lemma TagOn(q: Queue, t: Tid)
      requires Tagged() && q in queues && t in tags
      ensures t in Line(q) <==> tags[t] in queues[q].elems
    {
      EntryIn(queues[q].elems, tags[t]);
      if t in Line(q) {
        var i :| 0 <= i < |Line(q)| && Line(q)[i] == t;
        assert queues[q].elems[i] in queues[q].elems;
      }
    }

    /** A thread whose tag is neither on this list nor on another */
    lemma NowOffLists(q: Queue, t: Tid)
      requires Shape() && Tagged() && q in queues && t in tags && tags[t] !in Others(q) && tags[t] !in queues[q].Chain()
      ensures Off(S(), t)
    {
      LinesOf(t);
      forall r | r in queues
        ensures t !in Line(r)
      {
        TagOn(r, t);
        assert r != q ==> tags[t] !in queues[r].Chain();
      }
    }

    /** elem_find for a thread's tag */
    method Has(q: Queue, t: Tid) returns (found: bool)
      requires Valid() && q in queues && t in tags
      ensures Valid() && S() == old(S()) && Parts() == old(Parts()) && (found <==> t in Line(q))
    {
      hide Linked, Apart;
      Elsewhere(q);
      TagOn(q, t);
      ghost var members := Members(queues);
      assert allocated(members) && forall e :: e in members ==> allocated(e);
      found := queues[q].Find(tags[t]);
    }

    method Empty(q: Queue) returns (b: bool)
      requires Valid() && q in queues
      ensures Valid() && S() == old(S()) && Parts() == old(Parts()) && (b <==> Line(q) == [])
    {
      hide Linked, Apart, Tagged;
      Elsewhere(q);
      ghost var members := Members(queues);
      assert allocated(members) && forall e :: e in members ==> allocated(e);
      b := queues[q].Empty();
    }

    method SetThread(t: Tid, th: Thread)
      requires Valid() && t in tags
      modifies this`threads
      ensures Valid() && S() == WithThread(old(S()), t, th)
    {
      hide Linked, Entries;
      ghost var s := S();
      threads := threads[t := th];
      LocksAre(s.locks);
    }

    method SetCur(t: Tid)
      requires Valid()
      modifies this`cur
      ensures Valid() && S() == old(S()).(cur := t) && cur == t
    {
      hide Linked;
      cur := t;
    }

    lemma LocksAre(m: map<LockId, Lock>)
      requires Shape() && m.Keys == locks.Keys && forall l :: l in locks ==> LockOf(l) == m[l]
      ensures S().locks == m
    {
      hide LockOf;
    }

    method SetLock(l: LockId, v: LockVars)
      requires Valid() && l in locks
      modifies this`locks
      ensures Valid()
      ensures var k := old(S()).locks[l]; S() == WithLock(old(S()), l, Lock(v.value, k.waiters, v.holder, v.repeat))
    {
      hide Linked, Tagged, Entries;
      ghost var s := S();
      locks := locks[l := v];
      LocksAre(s.locks[l := Lock(v.value, s.locks[l].waiters, v.holder, v.repeat)]);
    }

    // --- thread.c ---

    /** thread_unblock */
    method ThreadUnblock(t: Tid)
      requires Valid() && UnblockAsserts(S(), t) && Off(S(), t)
      modifies this`threads, Parts()
      ensures Valid() && Parts() == old(Parts()) && S() == Unblocked(old(S()), t)
      ensures Line(ReadyQueue) == [t] + old(Line(ReadyQueue)) && t !in old(Line(ReadyQueue)) && threads[t].status == Ready
      ensures threads == old(threads)[t := old(threads[t]).(status := Ready)] && cur == old(cur)
      ensures S().locks == old(S()).locks
    {
      hide Apart, Tagged, Parts, Entries;
      Owns(t);
      var st := threads[t].status;
      if st != Ready {
        var found := Has(ReadyQueue, t);
        assert !found;
        Push(ReadyQueue, t);
        SetThread(t, threads[t].(status := Ready));
      }
    }

    lemma Owns(t: Tid)
      requires Tagged() && t in threads
      ensures t in tags
    {
    }

    /** schedule, up to the switch to the thread it returns */
    method Schedule() returns (next: Tid)
      requires Valid() && Schedulable(S()) && WaitersBlocked(S())
      modifies this`threads, this`cur, Parts()
      ensures Valid() && Parts() == old(Parts())
      ensures ScheduleAsserts(old(S())) && S() == Scheduled(old(S())) && next == cur
      ensures Schedulable(S()) && threads[next].status == Running
    {
      hide Schedulable, Apart, Tagged, Parts, Entries, WaitersBlocked, Off, Requeued, NeverEmpty, Scheduled;
      ghost var s := S();
      SchedulableHas(s);
      ScheduleOk(s);
      InSteps(s);
      Owns(cur);
      if threads[cur].status == Running {
        RunnerOff(s, cur);
        var found := Has(ReadyQueue, cur);
        assert !found;
        Append(ReadyQueue, cur);
        SetThread(cur, threads[cur].(status := Ready));
      }
      assert S() == Requeued(s);
      RequeuedWaiters(s);
      var empty := Empty(ReadyQueue);
      if empty {
        RunnerOff(Requeued(s), idle);
        ThreadUnblock(idle);
      }
      assert S() == NeverEmpty(Requeued(s));
      next := Pop(ReadyQueue);
      SetThread(next, threads[next].(status := Running));
      SetCur(next);
    }

    /** thread_block */
    method ThreadBlock(st: Status) returns (next: Tid)
      requires Valid() && Sleeping(st) && cur in threads && threads[cur].status == Running
      requires Schedulable(WithStatus(S(), cur, st)) && WaitersBlocked(WithStatus(S(), cur, st))
      modifies this`threads, this`cur, Parts()
      ensures Valid() && Parts() == old(Parts()) && next == cur
      ensures ScheduleAsserts(WithStatus(old(S()), old(cur), st)) && S() == Slept(old(S()), st)
    {
      hide Schedulable, WaitersBlocked, Apart, Tagged, Parts, Scheduled, ScheduleAsserts;
      Owns(cur);
      SetThread(cur, threads[cur].(status := st));
      next := Schedule();
    }

    // --- sync.c ---

    /** One pass through the loop of sema_down: true when the semaphore has been taken, false when the thread has been
        switched away from and will test again. */
    method SemaDown(l: LockId) returns (taken: bool)
      requires Valid() && Inv(S()) && threads[cur].pc == Down(l)
      modifies this, Parts()
      ensures Valid() && Parts() == old(Parts())
      ensures taken <==> old(S()).locks[l].value > 0
      ensures Does(old(S()), Progress, S()) && Inv(S())
    {
      hide Inv, PcOk, LockOk, Apart, Tagged, Parts, Off, WaitersBlocked;
      ghost var s := S();
      InvHas(s);
      WaitersAreBlocked(s);
      StepKeepsInv(s, Progress);
      Owns(cur);
      assert l in locks && LockOf(l) == s.locks[l];
      if locks[l].value == 0 {
        RunnerOff(s, cur);
        DownSchedulable(s, l);
        Append(WaitersOf(l), cur);
        var next := ThreadBlock(Blocked);
        return false;
      }
      SetLock(l, locks[l].(value := locks[l].value - 1));
      SetThread(cur, threads[cur].(pc := Got(l)));
      return true;
    }

    /** sema_up */
    method SemaUp(l: LockId)
      requires Valid() && Inv(S()) && threads[cur].pc == Up(l)
      modifies this, Parts()
      ensures Valid() && Parts() == old(Parts())
      ensures Does(old(S()), Progress, S()) && Inv(S())
    {
      hide Inv, Schedulable, LockOk, PcOk, RoleOf, Apart, Tagged, Parts, Off, WaitersBlocked, Resting;
      ghost var s := S();
      InvHas(s);
      UpStepOk(s, l);
      StepKeepsInv(s, Progress);
      Owns(cur);
      assert l in locks && LockOf(l) == s.locks[l];
      assert locks[l].value == 0;
      SetLock(l, locks[l].(value := locks[l].value + 1));
      SetThread(cur, threads[cur].(pc := Outside));
      var empty := Empty(WaitersOf(l));
      if !empty {
        FirstWaiter(s, l);
        var w := Pop(WaitersOf(l));
        ThreadUnblock(w);
      }
    }

    /** The steps of lock_acquire and lock_release around the semaphore */
    method LockStep(l: LockId)
      requires Valid() && Inv(S()) && threads[cur].pc in {Enter(l), Got(l), Owning(l), Clearing(l)}
      modifies this`threads, this`locks
      ensures Valid() && Does(old(S()), Progress, S()) && Inv(S())
    {
      hide Inv, PcOk, LockOk, Apart, Tagged, Parts;
      ghost var s := S();
      InvHas(s);
      StepKeepsInv(s, Progress);
      Owns(cur);
      assert l in locks && LockOf(l) == s.locks[l];
      var th := threads[cur];
      match th.pc {
        case Enter(_) =>
          if locks[l].holder != Some(cur) {
            SetThread(cur, th.(pc := Down(l)));
          } else {
            SetLock(l, locks[l].(repeat := locks[l].repeat + 1));
            SetThread(cur, th.(pc := Outside, held := th.held + multiset{l}));
          }
        case Got(_) =>
          SetLock(l, locks[l].(holder := Some(cur)));
          SetThread(cur, th.(pc := Owning(l)));
        case Owning(_) =>
          assert locks[l].repeat == 0;
          SetLock(l, locks[l].(repeat := 1));
          SetThread(cur, th.(pc := Outside, held := th.held + multiset{l}));
        case Clearing(_) =>
          SetLock(l, locks[l].(holder := None));
          SetThread(cur, th.(pc := Up(l)));
      }
    }

    /** lock_release, up to the point where the holder is cleared */
    method LockRelease(l: LockId)
      requires Valid() && Inv(S()) && Enabled(S(), Release(l))
      modifies this`threads, this`locks
      ensures Valid() && Does(old(S()), Release(l), S()) && Inv(S())
    {
      hide Inv, PcOk, LockOk, Apart, Tagged, Parts;
      ghost var s := S();
      StepKeepsInv(s, Release(l));
      Owns(cur);
      assert LockOf(l) == s.locks[l];
      assert locks[l].holder == Some(cur);
      var left := locks[l].repeat - 1;
      SetLock(l, locks[l].(repeat := left));
      var th := threads[cur];
      SetThread(cur, th.(pc := if left > 0 then Outside else Clearing(l), held := th.held - multiset{l}));
    }

    /** thread_start, as far as the lists are concerned */
    method ThreadStart(t: Tid)
      requires Valid() && Inv(S()) && Enabled(S(), Create(t))
      modifies this`threads, this`tags, Parts()
      ensures Valid() && fresh(Parts() - old(Parts())) && Does(old(S()), Create(t), S()) && Inv(S())
    {
      hide Inv, PcOk, LockOk, Apart, Tagged, Parts, Off;
      ghost var s := S();
      StepKeepsInv(s, Create(t));
      NewcomerOff(s, t);
      NewTag(t);
      var found := Has(ReadyQueue, t);
      assert !found;
      Append(ReadyQueue, t);
      SetThread(t, Thread(Ready, Outside, multiset{}));
    }

    /** A tag for a thread that is on no list */
    method NewTag(t: Tid)
      requires Valid() && t !in threads && Off(S(), t)
      modifies this`tags
      ensures Valid() && S() == old(S()) && t in tags && fresh(Parts() - old(Parts()))
    {
      hide Apart, Entries, Off, Linked, Members;
      ghost var s, members := S(), Members(queues);
      assert allocated(members) && forall e :: e in members ==> allocated(e);
      NoTagOf(t);
      var tag := new Elem(t);
      tags := tags[t := tag];
      assert Tagged();
      hide Tagged;
      LocksAre(s.locks);
    }

    lemma NoTagOf(t: Tid)
      requires Shape() && Tagged() && Off(S(), t)
      ensures forall q, e :: q in queues && e in queues[q].elems ==> e.entry != t
    {
      LinesOf(t);
      forall q, e | q in queues && e in queues[q].elems
        ensures e.entry != t
      {
        EntryIn(queues[q].elems, e);
      }
    }

    method RemoveThread(t: Tid)
      requires Valid()
      modifies this`threads
      ensures Valid() && S() == old(S()).(threads := old(threads) - {t})
    {
      hide Linked, Entries;
      ghost var s := S();
      threads := threads - {t};
      LocksAre(s.locks);
    }

    /** thread_exit for a thread that hangs: it is taken off the ready list if it is on it, which it is not. */
    method ThreadExit(t: Tid)
      requires Valid() && Inv(S()) && Enabled(S(), Reap(t))
      modifies this`threads
      ensures Valid() && Does(old(S()), Reap(t), S()) && Inv(S())
    {
      hide Inv, PcOk, LockOk, Parts, Apart, Tagged;
      ghost var s := S();
      StepKeepsInv(s, Reap(t));
      Owns(t);
      var found := Has(ReadyQueue, t);
      assert !found;
      RemoveThread(t);
    }

    // --- What the links are ---

    /** From the head along `next`, and from the tail along `prev`, come the tags of the threads on the list. */
    lemma LinksAre(q: Queue, i: nat)
      requires Valid() && q in queues && i <= |Line(q)|
      ensures forall t :: t in Line(q) ==> t in tags
      ensures var before := if i == 0 then queues[q].head else tags[Line(q)[i - 1]];
              var after := if i == |Line(q)| then queues[q].tail else tags[Line(q)[i]];
              before.next == after && after.prev == before
    {
      hide Apart, Linked;
      Elsewhere(q);
      ChainLinks(queues[q], i);
      forall k | 0 <= k < |Line(q)|
        ensures Line(q)[k] in tags && tags[Line(q)[k]] == queues[q].Chain()[k + 1]
      {
        assert queues[q].elems[k] in queues[q].elems;
      }
    }

    /** No thread is on two lists, or twice on one. */
    lemma OnOneList(q: Queue, r: Queue, i: nat, k: nat)
      requires Valid() && q in queues && r in queues && i < |Line(q)| && k < |Line(r)| && Line(q)[i] == Line(r)[k]
      ensures q == r && i == k
    {
      var e, f := queues[q].elems[i], queues[r].elems[k];
      assert e in queues[q].elems && f in queues[r].elems && e == f;
      assert e in queues[q].Chain() && f in queues[r].Chain();
      assert queues[q].Chain()[i + 1] == e && queues[q].Chain()[k + 1] == f;
    }

    /** A thread's tag is on the ready list exactly while the thread is READY, on the list of a lock's waiters exactly while
        it sleeps in sema_down on that lock, and then on no other list. */
    lemma WhereTagsAre(t: Tid)
      requires Valid() && Inv(S()) && t in threads
      ensures t in tags
      ensures threads[t].status == Ready <==> tags[t] in queues[ReadyQueue].elems
      ensures forall l :: l in locks ==>
                (threads[t].status == Blocked && threads[t].pc == Down(l) <==> tags[t] in queues[WaitersOf(l)].elems)
    {
      hide LockOk, PcOk, Apart, Entries;
      Owns(t);
      TagOn(ReadyQueue, t);
      forall l | l in locks
        ensures threads[t].status == Blocked && threads[t].pc == Down(l) <==> tags[t] in queues[WaitersOf(l)].elems
      {
        LockSays(S(), l, t);
        assert LockOf(l) == S().locks[l];
        TagOn(WaitersOf(l), t);
      }
    }

    // --- Runs over the linked lists ---

    /** Whatever may happen next, the code does it on its linked lists and keeps them in order. */
    method Step(e: Event)
      requires Valid() && Inv(S()) && Enabled(S(), e)
      modifies this, Parts()
      ensures Valid() && fresh(Parts() - old(Parts()))
      ensures Does(old(S()), e, S()) && Inv(S())
    {
      hide Inv, PcOk, LockOk, Apart, Tagged, Parts, WaitersBlocked, Off, Schedulable;
      ghost var s := S();
      InvHas(s);
      WaitersAreBlocked(s);
      StepKeepsInv(s, e);
      Owns(cur);
      match e {
        case Preempt =>
          var next := Schedule();
        case Acquire(l) =>
          SetThread(cur, threads[cur].(pc := Enter(l)));
        case Release(l) =>
          LockRelease(l);
        case Progress =>
          Proceed();
        case Sleep(st) =>
          Doze(st);
        case IdleLoop =>
          GoIdle();
        case Wake(t) =>
          WakeUp(t);
        case Create(t) =>
          ThreadStart(t);
        case Reap(t) =>
          ThreadExit(t);
      }
    }

    /** The current thread goes on inside lock_acquire or lock_release. */
    method Proceed()
      requires Valid() && Inv(S()) && Enabled(S(), Progress)
      modifies this, Parts()
      ensures Valid() && Parts() == old(Parts()) && Does(old(S()), Progress, S()) && Inv(S())
    {
      hide Inv, PcOk, LockOk, Apart, Tagged, Parts;
      match threads[cur].pc {
        case Down(l) =>
          var taken := SemaDown(l);
        case Up(l) =>
          SemaUp(l);
        case Enter(l) =>
          LockStep(l);
        case Got(l) =>
          LockStep(l);
        case Owning(l) =>
          LockStep(l);
        case Clearing(l) =>
          LockStep(l);
      }
    }

    /** thread_block, called outside the locks */
    method Doze(st: Status)
      requires Valid() && Inv(S()) && Enabled(S(), Sleep(st))
      modifies this`threads, this`cur, Parts()
      ensures Valid() && Parts() == old(Parts()) && Does(old(S()), Sleep(st), S())
    {
      hide Inv, PcOk, LockOk, Apart, Tagged, Parts, WaitersBlocked, Schedulable, Scheduled, ScheduleAsserts;
      ghost var s := S();
      InvHas(s);
      StepKeepsInv(s, Sleep(st));
      DozeSchedulable(s, st);
      Owns(cur);
      SetThread(cur, threads[cur].(pc := Asleep));
      var next := ThreadBlock(st);
    }

    /** The loop of the idle thread */
    method GoIdle()
      requires Valid() && Inv(S()) && Enabled(S(), IdleLoop)
      modifies this`threads, this`cur, Parts()
      ensures Valid() && Parts() == old(Parts()) && Does(old(S()), IdleLoop, S())
    {
      hide Inv, PcOk, LockOk, Apart, Tagged, Parts, WaitersBlocked, Schedulable, Scheduled, ScheduleAsserts;
      ghost var s := S();
      InvHas(s);
      StepKeepsInv(s, IdleLoop);
      IdleSchedulable(s);
      var next := ThreadBlock(Blocked);
    }

    /** thread_unblock of a thread that sleeps outside the locks */
    method WakeUp(t: Tid)
      requires Valid() && Inv(S()) && Enabled(S(), Wake(t))
      modifies this`threads, Parts()
      ensures Valid() && Parts() == old(Parts()) && Does(old(S()), Wake(t), S())
    {
      hide Inv, PcOk, LockOk, Apart, Tagged, Parts, Off;
      ghost var s := S();
      StepKeepsInv(s, Wake(t));
      SleeperOff(s, t);
      Owns(t);
      SetThread(t, threads[t].(pc := Outside));
      StillOff(s, S(), t);
      ThreadUnblock(t);
    }
  }

  /** The threads on the semaphores' lists are BLOCKED, and the idle thread is not among them. */
  ghost predicate WaitersBlocked(s: State) {
    forall l, t :: l in s.locks && t in s.locks[l].waiters ==> t in s.threads && s.threads[t].status == Blocked && t != s.idle
  }

  /** What schedule does, one call or assignment at a time */
  lemma InSteps(s: State)
    requires ScheduleAsserts(s)
    ensures var th := s.threads[s.cur];
            Requeued(s) == if th.status == Running then
                WithThread(WithLine(s, ReadyQueue, s.ready + [s.cur]), s.cur, th.(status := Ready))
              else s
    ensures var q := Requeued(s); NeverEmpty(q) == if q.ready == [] then Unblocked(q, s.idle) else q
    ensures var r := NeverEmpty(Requeued(s));
            && |r.ready| > 0 && r.ready[0] in r.threads
            && Scheduled(s) == WithThread(WithLine(r, ReadyQueue, r.ready[1..]), r.ready[0],
                                          r.threads[r.ready[0]].(status := Running)).(cur := r.ready[0])
    ensures Requeued(s).idle == s.idle && s.idle in Requeued(s).threads
    ensures s.threads[s.cur].status == Running ==> s.cur !in s.ready
    ensures Requeued(s).ready == [] ==> UnblockAsserts(Requeued(s), s.idle)
  {
  }

  lemma DozeSchedulable(s: State, st: Status)
    requires Inv(s) && Enabled(s, Sleep(st))
    ensures var m := WithStatus(At(s, Asleep), s.cur, st); Schedulable(m) && WaitersBlocked(m)
  {
    hide LockOk, PcOk;
    WaitersAreBlocked(s);
  }

  lemma IdleSchedulable(s: State)
    requires Inv(s) && Enabled(s, IdleLoop)
    ensures var m := WithStatus(s, s.cur, Blocked); Schedulable(m) && WaitersBlocked(m)
  {
    hide LockOk, PcOk;
    WaitersAreBlocked(s);
  }

  lemma SleeperOff(s: State, t: Tid)
    requires Inv(s) && Enabled(s, Wake(t))
    ensures Off(s, t)
  {
    hide LockOk;
    InvHas(s);
    PcHas(s, t);
    forall l | l in s.locks
      ensures t !in s.locks[l].waiters
    {
      LockSays(s, l, t);
    }
  }

  lemma StillOff(s: State, m: State, t: Tid)
    requires Off(s, t) && m.ready == s.ready && m.locks == s.locks
    ensures Off(m, t)
  {
  }

  lemma NewcomerOff(s: State, t: Tid)
    requires Inv(s) && t !in s.threads
    ensures Off(s, t)
  {
    hide LockOk, PcOk;
    WaitersAreBlocked(s);
  }

  lemma WaitersAreBlocked(s: State)
    requires Inv(s)
    ensures WaitersBlocked(s)
  {
    hide LockOk;
    InvHas(s);
    forall l, t | l in s.locks && t in s.locks[l].waiters
      ensures t in s.threads && s.threads[t].status == Blocked && t != s.idle
    {
      LockSays(s, l, t);
    }
  }

  /** The thread that goes to sleep in sema_down */
  lemma DownSchedulable(s: State, l: LockId)
    requires Inv(s) && s.threads[s.cur].pc == Down(l) && l in s.locks
    ensures Schedulable(DownSleep(s, l)) && WaitersBlocked(DownSleep(s, l))
  {
    WaitersAreBlocked(s);
    CurNotIdle(s, l);
    DownWaiters(s, l);
    InvHas(s);
    hide Inv, WaitersBlocked;
    BlockedSchedulable(s, DownSleep(s, l));
  }

  lemma BlockedSchedulable(s: State, m: State)
    requires Schedulable(s) && s.cur in s.threads && s.threads[s.cur].status == Running && s.cur != s.idle
    requires m.threads == s.threads[s.cur := s.threads[s.cur].(status := Blocked)]
    requires m.ready == s.ready && m.cur == s.cur && m.idle == s.idle
    ensures Schedulable(m)
  {
    forall t
      ensures t in m.ready <==> t in m.threads && m.threads[t].status == Ready
    {
      assert t in s.ready <==> t in s.threads && s.threads[t].status == Ready;
    }
  }

  lemma CurNotIdle(s: State, l: LockId)
    requires Inv(s) && s.threads[s.cur].pc == Down(l)
    ensures s.cur in s.threads && s.cur != s.idle && s.threads[s.cur].status == Running
  {
    hide LockOk;
    PcHas(s, s.cur);
  }

  lemma DownWaiters(s: State, l: LockId)
    requires WaitersBlocked(s) && s.cur in s.threads && s.cur != s.idle && l in s.locks
    ensures WaitersBlocked(DownSleep(s, l))
  {
  }

  lemma RunnerOff(s: State, t: Tid)
    requires WaitersBlocked(s) && t in s.threads && t !in s.ready && (s.threads[t].status != Blocked || t == s.idle)
    ensures Off(s, t)
  {
  }

  lemma RequeuedWaiters(s: State)
    requires s.cur in s.threads && WaitersBlocked(s)
    ensures WaitersBlocked(Requeued(s))
  {
  }
}
