/** thread/thread.c's scheduler and kernel/sync.c's semaphores and recursive locks, as steps of interleaved threads. A step
    is what runs without an interrupt: a region with interrupts off, or one access to a shared field. */
module Scheduling {
  import opened Words

  type Tid = nat
  type LockId = nat

  datatype Status = Running | Ready | Blocked | Waiting | Hanging

  /** Where a thread is in its kernel code: outside, in lock_acquire (before the test of the holder, at the loop of sema_down,
      after it, after the holder is set), in lock_release (before the holder is cleared, before sema_up), or in a
      thread_block of its own. */
  datatype Pc = Outside | Enter(l: LockId) | Down(l: LockId) | Got(l: LockId) | Owning(l: LockId) | Clearing(l: LockId) |
    Up(l: LockId) | Asleep

  /** `held` counts, for each lock, the acquires that have returned and the releases that have begun. */
  datatype Thread = Thread(status: Status, pc: Pc, held: multiset<LockId>)

  /** `struct lock` with its semaphore */
  datatype Lock = Lock(value: nat, waiters: seq<Tid>, holder: Option<Tid>, repeat: nat)

  datatype State = State(threads: map<Tid, Thread>, ready: seq<Tid>, cur: Tid, locks: map<LockId, Lock>, idle: Tid)

  // --- thread.c ---

  function WithStatus(s: State, t: Tid, st: Status): State
    requires t in s.threads
  {
    s.(threads := s.threads[t := s.threads[t].(status := st)])
  }

  predicate Sleeping(st: Status) {
    st == Blocked || st == Waiting || st == Hanging
  }

  /** What thread_unblock asserts and panics about. */
  predicate UnblockAsserts(s: State, t: Tid) {
    t in s.threads && Sleeping(s.threads[t].status) && t !in s.ready
  }

  /** thread_unblock puts the thread at the front of the ready list. */
  function Unblocked(s: State, t: Tid): State
    requires t in s.threads
  {
    WithStatus(s, t, Ready).(ready := [t] + s.ready)
  }

  /** The state of schedule when it looks whether the ready list is empty. */
  function Requeued(s: State): State
    requires s.cur in s.threads
  {
    if s.threads[s.cur].status == Running then WithStatus(s, s.cur, Ready).(ready := s.ready + [s.cur]) else s
  }

  /** And when it takes the first thread. */
  function NeverEmpty(s: State): (r: State)
    requires s.idle in s.threads
    ensures |r.ready| > 0
  {
    if |s.ready| == 0 then Unblocked(s, s.idle) else s
  }

  /** What schedule and the thread_unblock in it assert, and that it finds a thread. */
  predicate ScheduleAsserts(s: State) {
    && s.cur in s.threads && s.idle in s.threads
    && (s.threads[s.cur].status == Running ==> s.cur !in s.ready)
    && (|Requeued(s).ready| == 0 ==> UnblockAsserts(Requeued(s), s.idle))
    && NeverEmpty(Requeued(s)).ready[0] in s.threads
  }

  /** The state after the first thread on the ready list has been taken */
  function Popped(s: State): State
    requires |s.ready| > 0 && s.ready[0] in s.threads
  {
    WithStatus(s, s.ready[0], Running).(ready := s.ready[1..], cur := s.ready[0])
  }

  /** schedule */
  function Scheduled(s: State): State
    requires ScheduleAsserts(s)
  {
    Popped(NeverEmpty(Requeued(s)))
  }

  /** thread_block */
  function Slept(s: State, st: Status): State
    requires s.cur in s.threads && ScheduleAsserts(WithStatus(s, s.cur, st))
  {
    Scheduled(WithStatus(s, s.cur, st))
  }

  // --- The invariant ---

  /** What holds when schedule is called: nobody but possibly the current thread is RUNNING, the ready list holds the READY
      threads, each once, and the idle thread is in its loop. */
  ghost predicate Schedulable(s: State) {
    && s.cur in s.threads && s.idle in s.threads
    && (forall t :: t in s.threads && s.threads[t].status == Running ==> t == s.cur)
    && Distinct(s.ready)
    && (forall t :: t in s.ready <==> t in s.threads && s.threads[t].status == Ready)
    && s.threads[s.idle].pc == Outside && s.threads[s.idle].held == multiset{}
    && s.threads[s.idle].status in {Running, Ready, Blocked}
  }

  /** A thread sleeps only in the loop of sema_down, in a thread_block of its own or as the idle thread; and while it is in
      one of the inner steps on a lock it does not count that lock among those it holds. */
  ghost predicate PcOk(s: State, t: Tid)
    requires t in s.threads
  {
    var th := s.threads[t];
    && (Sleeping(th.status) && t != s.idle ==> th.pc == Asleep || (th.status == Blocked && th.pc.Down?))
    && (th.pc == Asleep ==> Sleeping(th.status) && t != s.idle)
    && (th.pc != Outside && th.pc != Asleep ==> th.pc.l in s.locks)
    && (th.pc.Down? || th.pc.Got? || th.pc.Owning? || th.pc.Clearing? || th.pc.Up? ==> th.held[th.pc.l] == 0)
    && (forall l :: l in th.held ==> l in s.locks)
  }

  /** What a thread is to a lock. */
  datatype Role = Out | Trying(asleep: bool) | Taking | Holding(depth: nat) | Leaving {
    predicate Inside() {
      Taking? || Holding? || Leaving?
    }
  }

  function RoleOf(s: State, t: Tid, l: LockId): Role {
    if t !in s.threads then Out
    else
      var th := s.threads[t];
      if th.pc == Down(l) then Trying(th.status == Blocked)
      else if th.pc == Got(l) then Taking
      else if th.pc == Owning(l) || th.pc == Clearing(l) then Holding(0)
      else if th.pc == Up(l) then Leaving
      else if th.held[l] > 0 then Holding(th.held[l])
      else Out
  }

  /** At most one thread is inside, exactly when the semaphore is taken; `holder` and `holder_repeat_nr` tell who and how
      deep; the waiters are the threads asleep in sema_down, each once; and when the semaphore is free although some wait,
      a woken one has yet to test it again. */
  ghost predicate LockOk(s: State, l: LockId)
    requires l in s.locks
  {
    var k := s.locks[l];
    && k.value <= 1
    && (forall t, u :: RoleOf(s, t, l).Inside() && RoleOf(s, u, l).Inside() ==> t == u)
    && (k.value == 0 <==> exists t :: RoleOf(s, t, l).Inside())
    && (forall t: Tid :: k.holder == Some(t) <==> RoleOf(s, t, l).Holding?)
    && (forall t :: RoleOf(s, t, l).Inside() ==> k.repeat == if RoleOf(s, t, l).Holding? then RoleOf(s, t, l).depth else 0)
    && (k.value == 1 ==> k.repeat == 0)
    && Distinct(k.waiters)
    && (forall t :: t in k.waiters <==> RoleOf(s, t, l) == Trying(true))
    && (k.value == 1 && |k.waiters| > 0 ==> exists t :: RoleOf(s, t, l) == Trying(false))
  }

  ghost predicate Inv(s: State) {
    && Schedulable(s) && s.threads[s.cur].status == Running
    && (forall t :: t in s.threads ==> PcOk(s, t))
    && (forall l :: l in s.locks ==> LockOk(s, l))
  }

  /** The threads and locks before the first step: the current thread runs, all others, among them the idle one, are on the
      ready list, and all locks are initialized. */
  lemma InvInitially(s: State)
    requires s.cur in s.threads && s.threads[s.cur] == Thread(Running, Outside, multiset{})
    requires s.idle in s.ready && s.idle != s.cur && Distinct(s.ready)
    requires forall t :: t in s.ready <==> t in s.threads && t != s.cur
    requires forall t :: t in s.ready ==> s.threads[t] == Thread(Ready, Outside, multiset{})
    requires forall l :: l in s.locks ==> s.locks[l] == Lock(1, [], None, 0)
    ensures Inv(s)
  {
    forall l | l in s.locks
      ensures LockOk(s, l)
    {
      assert forall t :: RoleOf(s, t, l) == Out;
    }
  }

  // --- schedule keeps the invariant ---

  /** Only the status of threads that do not sleep in sema_down has changed, and they still do not. */
  ghost predicate SameRoles(s: State, s': State) {
    s'.locks == s.locks && forall t, l :: RoleOf(s', t, l) == RoleOf(s, t, l)
  }

  lemma SameRolesKeepLocks(s: State, s': State)
    requires SameRoles(s, s')
    requires forall l :: l in s.locks ==> LockOk(s, l)
    ensures forall l :: l in s'.locks ==> LockOk(s', l)
  {
    forall l | l in s'.locks
      ensures LockOk(s', l)
    {
      hide RoleOf;
      assert LockOk(s, l);
    }
  }

  /** The threads of s' are those of s, but that some may have been moved between the CPU and the ready list, or have been
      the idle thread. */
  ghost predicate OnlyMoved(s: State, s': State) {
    && s'.locks == s.locks && s'.idle == s.idle && s'.threads.Keys == s.threads.Keys
    && forall t :: t in s.threads ==>
         && s'.threads[t].pc == s.threads[t].pc && s'.threads[t].held == s.threads[t].held
         && (Sleeping(s.threads[t].status) && t != s.idle ==> s'.threads[t].status == s.threads[t].status)
         && (Sleeping(s'.threads[t].status) ==> s'.threads[t].status == s.threads[t].status)
  }

  lemma SchedulableHas(s: State)
    requires Schedulable(s)
    ensures s.cur in s.threads && s.idle in s.threads
  {
  }

  lemma MovedTwice(s: State, m: State, s': State)
    requires OnlyMoved(s, m) && OnlyMoved(m, s')
    ensures OnlyMoved(s, s')
  {
  }

  lemma RequeueOk(s: State)
    requires Schedulable(s)
    ensures Schedulable(Requeued(s)) && Requeued(s).threads[Requeued(s).cur].status != Running
    ensures OnlyMoved(s, Requeued(s)) && (s.threads[s.cur].status == Running ==> s.cur !in s.ready)
  {
    var q := Requeued(s);
    if s.threads[s.cur].status == Running {
      LastOfReady(s.ready, s.cur);
      hide Distinct;
      assert forall t :: t in q.threads ==> q.threads[t] == if t == s.cur then s.threads[t].(status := Ready) else s.threads[t];
    }
  }

  lemma LastOfReady(q: seq<Tid>, t: Tid)
    ensures Distinct(q) && t !in q ==> Distinct(q + [t])
    ensures forall u :: u in q + [t] <==> u in q || u == t
  {
  }

  lemma NeverEmptyOk(s: State)
    requires Schedulable(s) && s.threads[s.cur].status != Running
    ensures |s.ready| == 0 ==> UnblockAsserts(s, s.idle)
    ensures Schedulable(NeverEmpty(s)) && NeverEmpty(s).threads[NeverEmpty(s).cur].status != Running
    ensures OnlyMoved(s, NeverEmpty(s))
  {
    if |s.ready| == 0 {
      assert s.idle !in s.ready;
    }
  }

  /** The threads behind the first one on the ready list */
  lemma RestOfReady(s: State)
    requires Schedulable(s) && |s.ready| > 0
    ensures Distinct(s.ready[1..]) && s.ready[0] in s.ready && s.ready[0] !in s.ready[1..]
    ensures forall t :: t in s.ready[1..] <==> t in s.ready && t != s.ready[0]
  {
    assert s.ready == [s.ready[0]] + s.ready[1..];
  }

  lemma PoppedMoved(s: State)
    requires Schedulable(s) && |s.ready| > 0 && s.ready[0] in s.threads && s.threads[s.ready[0]].status == Ready
    ensures OnlyMoved(s, Popped(s))
  {
    hide Distinct;
  }

  lemma PoppedSchedulable(s: State)
    requires Schedulable(s) && s.threads[s.cur].status != Running && |s.ready| > 0 && s.ready[0] in s.threads
    requires Distinct(s.ready[1..]) && forall t :: t in s.ready[1..] <==> t in s.ready && t != s.ready[0]
    ensures Schedulable(Popped(s)) && Popped(s).threads[Popped(s).cur].status == Running
  {
    hide Distinct;
    var s' := Popped(s);
    forall t
      ensures t in s'.ready <==> t in s'.threads && s'.threads[t].status == Ready
    {
      assert t in s.ready <==> t in s.threads && s.threads[t].status == Ready;
    }
  }

  lemma PopOk(s: State)
    requires Schedulable(s) && s.threads[s.cur].status != Running && |s.ready| > 0
    ensures s.ready[0] in s.threads && s.threads[s.ready[0]].status == Ready
    ensures Schedulable(Popped(s)) && Popped(s).threads[Popped(s).cur].status == Running && OnlyMoved(s, Popped(s))
  {
    hide OnlyMoved;
    RestOfReady(s);
    PoppedMoved(s);
    PoppedSchedulable(s);
  }

  /** From any state in which schedule may be called its assertions hold, and afterwards exactly one thread runs. */
  lemma ScheduleOk(s: State)
    requires Schedulable(s)
    ensures ScheduleAsserts(s)
    ensures Schedulable(Scheduled(s)) && Scheduled(s).threads[Scheduled(s).cur].status == Running
    ensures OnlyMoved(s, Scheduled(s))
  {
    hide OnlyMoved, Schedulable;
    SchedulableHas(s);
    RequeueOk(s);
    var q := Requeued(s);
    SchedulableHas(q);
    NeverEmptyOk(q);
    var r := NeverEmpty(q);
    SchedulableHas(r);
    PopOk(r);
    MovedTwice(s, q, r);
    MovedTwice(s, r, Scheduled(s));
  }

  lemma MovedRole(s: State, s': State, t: Tid, l: LockId)
    requires t in s.threads && t in s'.threads && PcOk(s, t) && s'.idle == s.idle
    requires s'.threads[t].pc == s.threads[t].pc && s'.threads[t].held == s.threads[t].held
    requires Sleeping(s.threads[t].status) && t != s.idle ==> s'.threads[t].status == s.threads[t].status
    requires Sleeping(s'.threads[t].status) ==> s'.threads[t].status == s.threads[t].status
    requires t == s.idle ==> s.threads[t].pc == Outside
    requires forall j :: j in s.locks ==> j in s'.locks
    ensures PcOk(s', t) && RoleOf(s', t, l) == RoleOf(s, t, l)
  {
  }

  lemma MovedRoles(s: State, s': State)
    requires OnlyMoved(s, s') && Schedulable(s)
    requires forall t :: t in s.threads ==> PcOk(s, t)
    ensures SameRoles(s, s') && forall t :: t in s'.threads ==> PcOk(s', t)
  {
    hide PcOk, RoleOf;
    forall t | t in s'.threads
      ensures PcOk(s', t)
    {
      MovedRole(s, s', t, 0);
    }
    forall t, l
      ensures RoleOf(s', t, l) == RoleOf(s, t, l)
    {
      if t in s.threads {
        MovedRole(s, s', t, l);
      } else {
        NoThread(s, t, l);
        NoThread(s', t, l);
      }
    }
  }

  lemma NoThread(s: State, t: Tid, l: LockId)
    requires t !in s.threads
    ensures RoleOf(s, t, l) == Out
  {
  }

  /** All the invariant says about threads and locks, without who runs. */
  ghost predicate Resting(s: State) {
    && (forall t :: t in s.threads ==> PcOk(s, t))
    && (forall l :: l in s.locks ==> LockOk(s, l))
  }

  /** Calling schedule restores the invariant. */
  lemma ScheduleKeepsInv(s: State)
    requires Schedulable(s) && Resting(s)
    ensures ScheduleAsserts(s) && Inv(Scheduled(s))
  {
    hide LockOk, PcOk, Schedulable, Scheduled, ScheduleAsserts, OnlyMoved, SameRoles;
    ScheduleOk(s);
    SchedulableHas(Scheduled(s));
    MovedRoles(s, Scheduled(s));
    SameRolesKeepLocks(s, Scheduled(s));
  }

  // --- sync.c, one uninterrupted step of the current thread at a time ---

  function WithThread(s: State, t: Tid, th: Thread): State {
    s.(threads := s.threads[t := th])
  }

  function At(s: State, pc: Pc): State
    requires s.cur in s.threads
  {
    WithThread(s, s.cur, s.threads[s.cur].(pc := pc))
  }

  function WithLock(s: State, l: LockId, k: Lock): State {
    s.(locks := s.locks[l := k])
  }

  /** lock_acquire compares the holder; nested acquires only count. */
  function EnterStep(s: State, l: LockId): State
    requires s.cur in s.threads && l in s.locks
  {
    var k, th := s.locks[l], s.threads[s.cur];
    if k.holder != Some(s.cur) then At(s, Down(l))
    else WithThread(WithLock(s, l, k.(repeat := k.repeat + 1)), s.cur, th.(pc := Outside, held := th.held + multiset{l}))
  }

  /** One test of sema_down's loop, up to the switch in thread_block. */
  function DownSleep(s: State, l: LockId): State
    requires s.cur in s.threads && l in s.locks
  {
    WithStatus(WithLock(s, l, s.locks[l].(waiters := s.locks[l].waiters + [s.cur])), s.cur, Blocked)
  }

  function DownTake(s: State, l: LockId): State
    requires s.cur in s.threads && l in s.locks && s.locks[l].value > 0
  {
    At(WithLock(s, l, s.locks[l].(value := s.locks[l].value - 1)), Got(l))
  }

  /** `plock->holder = running_thread()` */
  function GotStep(s: State, l: LockId): State
    requires s.cur in s.threads && l in s.locks
  {
    At(WithLock(s, l, s.locks[l].(holder := Some(s.cur))), Owning(l))
  }

  /** `plock->holder_repeat_nr = 1`, and lock_acquire returns. */
  function OwningStep(s: State, l: LockId): State
    requires s.cur in s.threads && l in s.locks
  {
    var th := s.threads[s.cur];
    WithThread(WithLock(s, l, s.locks[l].(repeat := 1)), s.cur, th.(pc := Outside, held := th.held + multiset{l}))
  }

  /** lock_release counts down and returns unless it has reached zero. */
  function ReleaseStep(s: State, l: LockId): State
    requires s.cur in s.threads && l in s.locks && s.locks[l].repeat > 0
  {
    var k, th := s.locks[l], s.threads[s.cur];
    var k' := k.(repeat := k.repeat - 1);
    WithThread(WithLock(s, l, k'), s.cur,
               th.(pc := if k'.repeat > 0 then Outside else Clearing(l), held := th.held - multiset{l}))
  }

  /** `plock->holder = NULL` */
  function ClearStep(s: State, l: LockId): State
    requires s.cur in s.threads && l in s.locks
  {
    At(WithLock(s, l, s.locks[l].(holder := None)), Up(l))
  }

  /** sema_up */
  function UpStep(s: State, l: LockId): State
    requires s.cur in s.threads && l in s.locks
    requires |s.locks[l].waiters| > 0 ==> s.locks[l].waiters[0] in s.threads
  {
    var k := s.locks[l];
    var up := At(WithLock(s, l, k.(value := k.value + 1)), Outside);
    if |k.waiters| == 0 then up
    else Unblocked(WithLock(up, l, up.locks[l].(waiters := k.waiters[1..])), k.waiters[0])
  }

  // --- What a step on a lock does to it ---

  /** The change of one thread's role that goes with a change of the lock. */
  predicate Moves(c: Tid, k: Lock, k': Lock, r: Role, r': Role) {
    || (k' == k && r' == r)
    || (k' == k && r == Out && r' == Trying(false))
    || (k.value == 0 && k' == k.(waiters := k.waiters + [c]) && r == Trying(false) && r' == Trying(true))
    || (k.value > 0 && k' == k.(value := k.value - 1) && r == Trying(false) && r' == Taking)
    || (k' == k.(holder := Some(c)) && r == Taking && r' == Holding(0))
    || (r.Holding? && r'.Holding? && k' == k.(repeat := r'.depth))
    || (k' == k.(holder := None) && r == Holding(0) && r' == Leaving)
  }

  lemma MoveOk(s: State, s': State, l: LockId, c: Tid)
    requires l in s.locks && l in s'.locks && LockOk(s, l)
    requires forall t :: t != c ==> RoleOf(s', t, l) == RoleOf(s, t, l)
    requires Moves(c, s.locks[l], s'.locks[l], RoleOf(s, c, l), RoleOf(s', c, l))
    ensures LockOk(s', l)
  {
    hide RoleOf;
    var k, k' := s.locks[l], s'.locks[l];
    assert c in k.waiters <==> RoleOf(s, c, l) == Trying(true);
    assert forall t :: t in k.waiters + [c] <==> t in k.waiters || t == c;
    if RoleOf(s, c, l).Inside() || RoleOf(s', c, l).Inside() {
      assert RoleOf(s', c, l).Inside();
    } else if exists t :: RoleOf(s, t, l).Inside() {
      var t :| RoleOf(s, t, l).Inside();
      assert RoleOf(s', t, l).Inside();
    }
    if k.value == 1 && |k.waiters| > 0 && k'.value == 1 {
      var t :| RoleOf(s, t, l) == Trying(false);
      assert RoleOf(s', t, l) == Trying(false);
    }
  }

  /** sema_up frees the semaphore and wakes the first waiter. */
  lemma UpOk(s: State, s': State, l: LockId, c: Tid)
    requires l in s.locks && l in s'.locks && LockOk(s, l)
    requires RoleOf(s, c, l) == Leaving && RoleOf(s', c, l) == Out
    requires var k := s.locks[l];
             if |k.waiters| == 0 then
               s'.locks[l] == k.(value := k.value + 1) && forall t :: t != c ==> RoleOf(s', t, l) == RoleOf(s, t, l)
             else
               && s'.locks[l] == k.(value := k.value + 1, waiters := k.waiters[1..])
               && RoleOf(s', k.waiters[0], l) == Trying(false)
               && forall t :: t != c && t != k.waiters[0] ==> RoleOf(s', t, l) == RoleOf(s, t, l)
    ensures s.locks[l].value == 0 && LockOk(s', l)
  {
    hide RoleOf;
    var k, k' := s.locks[l], s'.locks[l];
    assert RoleOf(s, c, l).Inside();
    if |k.waiters| > 0 {
      var w := k.waiters[0];
      assert k.waiters == [w] + k'.waiters;
      assert w in k.waiters;
      assert forall t :: t in k'.waiters <==> t in k.waiters && t != w;
    }
  }

  /** The thread's position has to do with lock l or with none. */
  predicate About(pc: Pc, l: LockId) {
    pc == Outside || (pc != Asleep && pc.l == l)
  }

  /** s' differs from s in the current thread's position and count for lock l, and in lock l. */
  ghost predicate Worked(s: State, s': State, l: LockId) {
    && s.cur in s.threads && l in s.locks && l in s'.locks && s.cur in s'.threads
    && s' == s.(threads := s.threads[s.cur := s'.threads[s.cur]], locks := s.locks[l := s'.locks[l]])
    && s'.threads[s.cur].status == s.threads[s.cur].status
    && About(s.threads[s.cur].pc, l) && About(s'.threads[s.cur].pc, l)
    && forall j :: j != l ==> s'.threads[s.cur].held[j] == s.threads[s.cur].held[j]
  }

  lemma OtherRoles(s: State, s': State, l: LockId)
    requires Worked(s, s', l)
    ensures forall t, j :: t != s.cur || j != l ==> RoleOf(s', t, j) == RoleOf(s, t, j)
  {
  }

  lemma WorkedKeepsInv(s: State, s': State, l: LockId)
    requires Inv(s) && Worked(s, s', l) && s.cur != s.idle && PcOk(s', s.cur)
    requires Moves(s.cur, s.locks[l], s'.locks[l], RoleOf(s, s.cur, l), RoleOf(s', s.cur, l))
    ensures Inv(s')
  {
    hide RoleOf, LockOk, Moves;
    OtherRoles(s, s', l);
    forall t | t in s'.threads
      ensures PcOk(s', t)
    {
      assert t == s.cur || PcOk(s, t);
    }
    forall j | j in s'.locks
      ensures LockOk(s', j)
    {
      assert LockOk(s, j);
      if j == l {
        MoveOk(s, s', l, s.cur);
      } else {
        NothingMoved(s, s', j);
      }
    }
  }

  lemma NothingMoved(s: State, s': State, l: LockId)
    requires l in s.locks && l in s'.locks && s'.locks[l] == s.locks[l] && LockOk(s, l)
    requires forall t :: RoleOf(s', t, l) == RoleOf(s, t, l)
    ensures LockOk(s', l)
  {
    hide RoleOf;
  }

  // --- Each step ---

  lemma EnterOk(s: State, l: LockId)
    requires Inv(s) && s.threads[s.cur].pc == Enter(l)
    ensures l in s.locks && Inv(EnterStep(s, l))
  {
    hide Schedulable, LockOk;
    SchedulableHas(s);
    CurOk(s, l);
    WorkedKeepsInv(s, EnterStep(s, l), l);
  }

  lemma LockSays(s: State, l: LockId, t: Tid)
    requires l in s.locks && LockOk(s, l)
    ensures var k, r := s.locks[l], RoleOf(s, t, l);
            && k.value <= 1 && (k.holder == Some(t) <==> r.Holding?) && (t in k.waiters <==> r == Trying(true))
            && (r.Inside() ==> k.value == 0 && k.repeat == if r.Holding? then r.depth else 0)
  {
    hide RoleOf;
  }

  /** What the invariant says about the current thread and a lock it works on. */
  lemma CurOk(s: State, l: LockId)
    requires Inv(s) && s.threads[s.cur].pc != Outside && s.threads[s.cur].pc != Asleep && s.threads[s.cur].pc.l == l
    ensures s.cur != s.idle && l in s.locks && PcOk(s, s.cur) && s.threads[s.cur].status == Running
    ensures var k, r := s.locks[l], RoleOf(s, s.cur, l);
            && k.value <= 1 && (k.holder == Some(s.cur) <==> r.Holding?)
            && (r.Inside() ==> k.value == 0 && k.repeat == if r.Holding? then r.depth else 0)
  {
    hide LockOk;
    assert PcOk(s, s.cur);
    LockSays(s, l, s.cur);
  }

  lemma DownTakeOk(s: State, l: LockId)
    requires Inv(s) && s.threads[s.cur].pc == Down(l) && l in s.locks && s.locks[l].value > 0
    ensures Inv(DownTake(s, l))
  {
    hide Schedulable, LockOk;
    SchedulableHas(s);
    CurOk(s, l);
    WorkedKeepsInv(s, DownTake(s, l), l);
  }

  lemma GotOk(s: State, l: LockId)
    requires Inv(s) && s.threads[s.cur].pc == Got(l)
    ensures l in s.locks && Inv(GotStep(s, l))
  {
    hide Schedulable, LockOk;
    SchedulableHas(s);
    CurOk(s, l);
    WorkedKeepsInv(s, GotStep(s, l), l);
  }

  lemma OwningOk(s: State, l: LockId)
    requires Inv(s) && s.threads[s.cur].pc == Owning(l)
    ensures l in s.locks && s.locks[l].repeat == 0 && Inv(OwningStep(s, l))
  {
    hide Schedulable, LockOk;
    SchedulableHas(s);
    CurOk(s, l);
    WorkedKeepsInv(s, OwningStep(s, l), l);
  }

  lemma ReleaseOk(s: State, l: LockId)
    requires Inv(s) && s.threads[s.cur].pc == Outside && s.threads[s.cur].held[l] > 0
    ensures l in s.locks && s.locks[l].holder == Some(s.cur) && s.locks[l].repeat > 0 && Inv(ReleaseStep(s, l))
  {
    hide Schedulable, LockOk;
    SchedulableHas(s);
    CurHolds(s, l);
    WorkedKeepsInv(s, ReleaseStep(s, l), l);
  }

  lemma CurHolds(s: State, l: LockId)
    requires Inv(s) && s.threads[s.cur].pc == Outside && s.threads[s.cur].held[l] > 0
    ensures s.cur != s.idle && l in s.locks && PcOk(s, s.cur)
    ensures s.locks[l].holder == Some(s.cur) && s.locks[l].repeat == s.threads[s.cur].held[l]
    ensures RoleOf(s, s.cur, l) == Holding(s.threads[s.cur].held[l])
  {
    hide LockOk;
    IdleHoldsNothing(s);
    assert PcOk(s, s.cur) && l in s.threads[s.cur].held;
    LockSays(s, l, s.cur);
    assert RoleOf(s, s.cur, l) == Holding(s.threads[s.cur].held[l]);
  }

  lemma IdleHoldsNothing(s: State)
    requires Schedulable(s)
    ensures s.threads[s.idle].held == multiset{} && s.threads[s.idle].pc == Outside
  {
  }

  lemma ClearOk(s: State, l: LockId)
    requires Inv(s) && s.threads[s.cur].pc == Clearing(l)
    ensures l in s.locks && Inv(ClearStep(s, l))
  {
    hide Schedulable, LockOk;
    SchedulableHas(s);
    CurOk(s, l);
    WorkedKeepsInv(s, ClearStep(s, l), l);
  }

  lemma DownSleepOk(s: State, l: LockId)
    requires Inv(s) && s.threads[s.cur].pc == Down(l) && l in s.locks && s.locks[l].value == 0
    ensures var m := DownSleep(s, l); ScheduleAsserts(m) && Inv(Scheduled(m))
  {
    hide LockOk;
    CurOk(s, l);
    var m := DownSleep(s, l);
    assert Schedulable(m);
    assert forall t, j :: t != s.cur || j != l ==> RoleOf(m, t, j) == RoleOf(s, t, j);
    SleepRests(s, m, l);
    ScheduleKeepsInv(m);
  }

  lemma SleepRests(s: State, m: State, l: LockId)
    requires Inv(s) && s.threads[s.cur].pc == Down(l) && l in s.locks && s.locks[l].value == 0 && m == DownSleep(s, l)
    requires forall t, j :: t != s.cur || j != l ==> RoleOf(m, t, j) == RoleOf(s, t, j)
    ensures Resting(m)
  {
    hide LockOk, Schedulable;
    SchedulableHas(s);
    CurOk(s, l);
    forall t | t in m.threads
      ensures PcOk(m, t)
    {
      assert PcOk(s, t);
    }
    assert RoleOf(s, s.cur, l) == Trying(false) && RoleOf(m, s.cur, l) == Trying(true);
    hide RoleOf, PcOk;
    forall j | j in m.locks
      ensures LockOk(m, j)
    {
      assert LockOk(s, j);
      if j == l {
        MoveOk(s, m, l, s.cur);
      } else {
        NothingMoved(s, m, j);
      }
    }
  }

  lemma UpStepOk(s: State, l: LockId)
    requires Inv(s) && s.threads[s.cur].pc == Up(l)
    ensures l in s.locks && s.locks[l].value == 0
    ensures |s.locks[l].waiters| > 0 ==> UnblockAsserts(s, s.locks[l].waiters[0])
    ensures Inv(UpStep(s, l))
  {
    hide Schedulable, LockOk;
    SchedulableHas(s);
    CurOk(s, l);
    if |s.locks[l].waiters| > 0 {
      FirstWaiter(s, l);
    }
    var s' := UpStep(s, l);
    UpSchedulable(s, l);
    UpRoles(s, l);
    hide RoleOf;
    UpPcs(s, l);
    hide PcOk, UpStep;
    UpOk(s, s', l, s.cur);
    forall j | j in s'.locks
      ensures LockOk(s', j)
    {
      assert LockOk(s, j);
      if j != l {
        NothingMoved(s, s', j);
      }
    }
  }

  lemma UpPcs(s: State, l: LockId)
    requires s.cur in s.threads && s.threads[s.cur].pc == Up(l) && l in s.locks
    requires forall t :: t in s.threads ==> PcOk(s, t)
    requires |s.locks[l].waiters| > 0 ==> s.locks[l].waiters[0] in s.threads && s.threads[s.locks[l].waiters[0]].pc == Down(l)
    ensures forall t :: t in UpStep(s, l).threads ==> PcOk(UpStep(s, l), t)
  {
    forall t | t in UpStep(s, l).threads
      ensures PcOk(UpStep(s, l), t)
    {
      assert PcOk(s, t);
    }
  }

  lemma FirstWaiter(s: State, l: LockId)
    requires Inv(s) && l in s.locks && |s.locks[l].waiters| > 0
    ensures var w := s.locks[l].waiters[0];
            && UnblockAsserts(s, w) && s.threads[w].status == Blocked && s.threads[w].pc == Down(l) && w != s.idle && w != s.cur
  {
    hide LockOk;
    var w := s.locks[l].waiters[0];
    LockSays(s, l, w);
    assert w in s.locks[l].waiters && RoleOf(s, w, l) == Trying(true);
    assert PcOk(s, w);
  }

  lemma UpSchedulable(s: State, l: LockId)
    requires Inv(s) && s.threads[s.cur].pc == Up(l) && l in s.locks
    requires |s.locks[l].waiters| > 0 ==>
               UnblockAsserts(s, s.locks[l].waiters[0]) && s.locks[l].waiters[0] != s.cur && s.locks[l].waiters[0] != s.idle
    ensures Schedulable(UpStep(s, l)) && UpStep(s, l).threads[s.cur].status == Running
  {
    hide LockOk, PcOk;
  }

  lemma UpRoles(s: State, l: LockId)
    requires s.cur in s.threads && s.threads[s.cur].pc == Up(l) && l in s.locks && s.threads[s.cur].held[l] == 0
    requires |s.locks[l].waiters| > 0 ==>
               var w := s.locks[l].waiters[0]; w in s.threads && w != s.cur && s.threads[w].pc == Down(l)
    ensures var s' := UpStep(s, l);
            && RoleOf(s, s.cur, l) == Leaving && RoleOf(s', s.cur, l) == Out
            && (forall t, j :: j != l ==> RoleOf(s', t, j) == RoleOf(s, t, j))
            && (forall t :: t != s.cur && (|s.locks[l].waiters| == 0 || t != s.locks[l].waiters[0]) ==>
                  RoleOf(s', t, l) == RoleOf(s, t, l))
            && (|s.locks[l].waiters| > 0 ==> RoleOf(s', s.locks[l].waiters[0], l) == Trying(false))
  {
  }

  // --- Runs ---

  /** What may happen next: a timer interrupt or thread_yield; the current thread calls lock_acquire, calls lock_release on a
      lock it holds, or goes on inside one of them; it sleeps elsewhere; the idle thread goes round its loop; somebody wakes
      a thread that sleeps elsewhere; a thread is started; a thread that hangs and holds no lock is taken away. */
  datatype Event = Preempt | Acquire(l: LockId) | Release(l: LockId) | Progress | Sleep(st: Status) | IdleLoop |
    Wake(t: Tid) | Create(t: Tid) | Reap(t: Tid)

  ghost predicate Enabled(s: State, e: Event) {
    && s.cur in s.threads
    && var th := s.threads[s.cur];
       match e
       case Preempt => true
       case Acquire(l) => th.pc == Outside && s.cur != s.idle && l in s.locks
       case Release(l) => th.pc == Outside && th.held[l] > 0
       case Progress => th.pc != Outside && th.pc != Asleep
       case Sleep(st) => th.pc == Outside && s.cur != s.idle && Sleeping(st)
       case IdleLoop => s.cur == s.idle
       case Wake(t) => t in s.threads && s.threads[t].pc == Asleep
       case Create(t) => t !in s.threads
       case Reap(t) => t in s.threads && s.threads[t].pc == Asleep && s.threads[t].status == Hanging && s.threads[t].held == multiset{}
  }

  /** What the code asserts, or takes for granted, on the way. */
  ghost predicate Asserts(s: State, e: Event)
    requires Enabled(s, e)
  {
    var th := s.threads[s.cur];
    match e
    case Preempt => th.status == Running && ScheduleAsserts(s)
    case Acquire(l) => true
    case Release(l) => l in s.locks && s.locks[l].holder == Some(s.cur) && s.locks[l].repeat > 0
    case Progress => th.pc.l in s.locks && ProgressAsserts(s, th.pc.l)
    case Sleep(st) => th.status == Running && ScheduleAsserts(WithStatus(At(s, Asleep), s.cur, st))
    case IdleLoop => th.status == Running && ScheduleAsserts(WithStatus(s, s.cur, Blocked))
    case Wake(t) => UnblockAsserts(s, t)
    case Create(t) => t !in s.ready
    case Reap(t) => t != s.cur && t !in s.ready && t != s.idle
  }

  ghost predicate ProgressAsserts(s: State, l: LockId)
    requires s.cur in s.threads && l in s.locks
  {
    var k, th := s.locks[l], s.threads[s.cur];
    match th.pc
    case Down(_) => k.value == 0 ==> th.status == Running && ScheduleAsserts(DownSleep(s, l))
    case Owning(_) => k.repeat == 0
    case Up(_) => k.value == 0 && (|k.waiters| > 0 ==> UnblockAsserts(s, k.waiters[0]))
    case _ => true
  }

  function Progressed(s: State, l: LockId): State
    requires s.cur in s.threads && l in s.locks && ProgressAsserts(s, l)
  {
    match s.threads[s.cur].pc
    case Enter(_) => EnterStep(s, l)
    case Down(_) => if s.locks[l].value == 0 then Scheduled(DownSleep(s, l)) else DownTake(s, l)
    case Got(_) => GotStep(s, l)
    case Owning(_) => OwningStep(s, l)
    case Clearing(_) => ClearStep(s, l)
    case Up(_) => UpStep(s, l)
    case _ => s
  }

  function Next(s: State, e: Event): State
    requires Enabled(s, e) && Asserts(s, e)
  {
    match e
    case Preempt => Scheduled(s)
    case Acquire(l) => At(s, Enter(l))
    case Release(l) => ReleaseStep(s, l)
    case Progress => Progressed(s, s.threads[s.cur].pc.l)
    case Sleep(st) => Scheduled(WithStatus(At(s, Asleep), s.cur, st))
    case IdleLoop => Scheduled(WithStatus(s, s.cur, Blocked))
    case Wake(t) => Unblocked(WithThread(s, t, s.threads[t].(pc := Outside)), t)
    case Create(t) => WithThread(s, t, Thread(Ready, Outside, multiset{})).(ready := s.ready + [t])
    case Reap(t) => s.(threads := s.threads - {t})
  }

  lemma ProgressOk(s: State, l: LockId)
    requires Inv(s) && s.threads[s.cur].pc != Outside && s.threads[s.cur].pc != Asleep && s.threads[s.cur].pc.l == l
    ensures l in s.locks && ProgressAsserts(s, l) && Inv(Progressed(s, l))
  {
    hide Inv, ScheduleAsserts, Scheduled, UpStep, DownSleep, EnterStep, RoleOf, PcOk, LockOk, Schedulable, Resting;
    InvHas(s);
    CurOk(s, l);
    match s.threads[s.cur].pc {
      case Enter(_) => EnterOk(s, l);
      case Down(_) =>
        if s.locks[l].value == 0 {
          DownSleepOk(s, l);
        } else {
          DownTakeOk(s, l);
        }
      case Got(_) => GotOk(s, l);
      case Owning(_) => OwningOk(s, l);
      case Clearing(_) => ClearOk(s, l);
      case Up(_) => UpStepOk(s, l);
    }
  }

  lemma InvHas(s: State)
    requires Inv(s)
    ensures Schedulable(s) && Resting(s) && s.cur in s.threads && s.threads[s.cur].status == Running
  {
  }

  /** A step that changes, adds or removes one thread without changing its roles keeps what the invariant says about
      threads and locks. */
  lemma RestsStill(s: State, m: State, t: Tid)
    requires Resting(s) && m.locks == s.locks && m.idle == s.idle
    requires forall u :: u != t ==> (u in m.threads <==> u in s.threads) && (u in s.threads ==> m.threads[u] == s.threads[u])
    requires forall l: LockId :: RoleOf(m, t, l) == RoleOf(s, t, l)
    requires t in m.threads ==> PcOk(m, t)
    ensures Resting(m)
  {
    hide LockOk, RoleOf;
    forall u | u in m.threads
      ensures PcOk(m, u)
    {
      assert u != t ==> PcOk(s, u);
    }
    hide PcOk;
    forall u, l
      ensures RoleOf(m, u, l) == RoleOf(s, u, l)
    {
      RoleFrame(s, m, u, l);
    }
    SameRolesKeepLocks(s, m);
  }

  lemma RoleFrame(s: State, m: State, u: Tid, l: LockId)
    ensures (u in m.threads <==> u in s.threads) && (u in s.threads ==> m.threads[u] == s.threads[u]) ==>
              RoleOf(m, u, l) == RoleOf(s, u, l)
  {
  }

  lemma PcHas(s: State, t: Tid)
    requires Resting(s) && t in s.threads
    ensures PcOk(s, t)
  {
  }

  lemma SleepOk(s: State, st: Status)
    requires Inv(s) && Enabled(s, Sleep(st))
    ensures Asserts(s, Sleep(st)) && Inv(Next(s, Sleep(st)))
  {
    hide Resting, Inv, Scheduled, ScheduleAsserts, LockOk;
    InvHas(s);
    PcHas(s, s.cur);
    var m := WithStatus(At(s, Asleep), s.cur, st);
    RestsStill(s, m, s.cur);
    ScheduleKeepsInv(m);
  }

  lemma IdleLoopOk(s: State)
    requires Inv(s) && Enabled(s, IdleLoop)
    ensures Asserts(s, IdleLoop) && Inv(Next(s, IdleLoop))
  {
    hide Resting, Inv, Scheduled, ScheduleAsserts;
    InvHas(s);
    PcHas(s, s.cur);
    var m := WithStatus(s, s.cur, Blocked);
    RestsStill(s, m, s.cur);
    ScheduleKeepsInv(m);
  }

  lemma RunningInv(s: State)
    requires Schedulable(s) && Resting(s) && s.threads[s.cur].status == Running
    ensures Inv(s)
  {
  }

  lemma AcquireOk(s: State, l: LockId)
    requires Inv(s) && Enabled(s, Acquire(l))
    ensures Asserts(s, Acquire(l)) && Inv(Next(s, Acquire(l)))
  {
    hide Resting, Inv;
    InvHas(s);
    PcHas(s, s.cur);
    var m := At(s, Enter(l));
    RestsStill(s, m, s.cur);
    RunningInv(m);
  }

  lemma UnblockSchedulable(s: State, t: Tid, m: State)
    requires Schedulable(s) && t in s.threads && Sleeping(s.threads[t].status) && t != s.cur && t != s.idle
    requires m == Unblocked(WithThread(s, t, s.threads[t].(pc := Outside)), t)
    ensures Schedulable(m) && UnblockAsserts(s, t)
  {
  }

  lemma WokenRoles(s: State, m: State, t: Tid)
    requires t in s.threads && PcOk(s, t) && s.threads[t].pc == Asleep
    requires m == Unblocked(WithThread(s, t, s.threads[t].(pc := Outside)), t)
    ensures PcOk(m, t) && forall l: LockId :: RoleOf(m, t, l) == RoleOf(s, t, l)
  {
  }

  lemma WakeOk(s: State, t: Tid)
    requires Inv(s) && Enabled(s, Wake(t))
    ensures Asserts(s, Wake(t)) && Inv(Next(s, Wake(t)))
  {
    hide Resting, Inv;
    InvHas(s);
    PcHas(s, t);
    var m := Next(s, Wake(t));
    UnblockSchedulable(s, t, m);
    WokenRoles(s, m, t);
    hide Schedulable, RoleOf, PcOk;
    RestsStill(s, m, t);
    RunningInv(m);
  }

  lemma CreateOk(s: State, t: Tid)
    requires Inv(s) && Enabled(s, Create(t))
    ensures Asserts(s, Create(t)) && Inv(Next(s, Create(t)))
  {
    hide Resting, Inv;
    InvHas(s);
    assert t !in s.ready;
    var m := Next(s, Create(t));
    RestsStill(s, m, t);
    RunningInv(m);
  }

  lemma ReapOk(s: State, t: Tid)
    requires Inv(s) && Enabled(s, Reap(t))
    ensures Asserts(s, Reap(t)) && Inv(Next(s, Reap(t)))
  {
    hide Resting, Inv;
    InvHas(s);
    PcHas(s, t);
    var m := Next(s, Reap(t));
    RestsStill(s, m, t);
    RunningInv(m);
  }

  /** Whatever happens next, the code's assertions hold and so does the invariant afterwards. */
  lemma StepKeepsInv(s: State, e: Event)
    requires Inv(s) && Enabled(s, e)
    ensures Asserts(s, e) && Inv(Next(s, e))
  {
    hide Inv, ScheduleAsserts, Scheduled, RoleOf, ProgressAsserts, Progressed;
    InvHas(s);
    match e {
      case Preempt => ScheduleKeepsInv(s);
      case Acquire(l) => AcquireOk(s, l);
      case Release(l) => ReleaseOk(s, l);
      case Progress => ProgressOk(s, s.threads[s.cur].pc.l);
      case Sleep(st) => SleepOk(s, st);
      case IdleLoop => IdleLoopOk(s);
      case Wake(t) => WakeOk(s, t);
      case Create(t) => CreateOk(s, t);
      case Reap(t) => ReapOk(s, t);
    }
  }

  /** s' comes from s by e, with every assertion on the way kept. */
  ghost predicate Does(s: State, e: Event, s': State) {
    Enabled(s, e) && Asserts(s, e) && s' == Next(s, e)
  }

  /** A run: each state follows from the one before by an event that was possible. */
  ghost predicate IsRun(run: seq<State>, events: seq<Event>) {
    && |run| == |events| + 1
    && forall i :: 0 <= i < |events| ==>
         Enabled(run[i], events[i]) && (Asserts(run[i], events[i]) ==> run[i + 1] == Next(run[i], events[i]))
  }

  /** In every run from a sound state no assertion ever fails and every state is sound. */
  lemma {:induction false} RunsAreSound(run: seq<State>, events: seq<Event>)
    requires IsRun(run, events) && Inv(run[0])
    ensures forall i :: 0 <= i < |events| ==> Asserts(run[i], events[i])
    ensures forall i :: 0 <= i < |run| ==> Inv(run[i])
  {
    hide Inv, Asserts, Next, Enabled;
    for i := 0 to |events|
      invariant forall k :: 0 <= k < i ==> Asserts(run[k], events[k])
      invariant forall k :: 0 <= k <= i ==> Inv(run[k])
    {
      StepKeepsInv(run[i], events[i]);
    }
  }

  // --- What follows ---

  /** The thread's calls on lock l: between the end of the sema_down in its first lock_acquire and the sema_up of its last
      lock_release. */
  predicate Inside(th: Thread, l: LockId) {
    th.held[l] > 0 || th.pc == Got(l) || th.pc == Owning(l) || th.pc == Clearing(l) || th.pc == Up(l)
  }

  lemma InsideRole(s: State, t: Tid, l: LockId)
    requires t in s.threads && PcOk(s, t) && Inside(s.threads[t], l)
    ensures RoleOf(s, t, l).Inside()
    ensures s.threads[t].held[l] > 0 ==> RoleOf(s, t, l) == Holding(s.threads[t].held[l])
  {
  }

  lemma OneInside(s: State, t: Tid, u: Tid, l: LockId)
    requires Resting(s) && l in s.locks && RoleOf(s, t, l).Inside() && RoleOf(s, u, l).Inside()
    ensures t == u && s.locks[l].value == 0
  {
    hide RoleOf, PcOk;
    assert LockOk(s, l);
  }

  /** In every state of every run at most one thread is inside a lock, its value is then 0, and holder and holder_repeat_nr
      name the thread and count its acquires. */
  lemma MutualExclusion(run: seq<State>, events: seq<Event>, i: nat, t: Tid, u: Tid, l: LockId)
    requires IsRun(run, events) && Inv(run[0]) && i < |run| && l in run[i].locks
    requires t in run[i].threads && u in run[i].threads && Inside(run[i].threads[t], l) && Inside(run[i].threads[u], l)
    ensures t == u && run[i].locks[l].value == 0
    ensures run[i].threads[t].held[l] > 0 ==>
              run[i].locks[l].holder == Some(t) && run[i].locks[l].repeat == run[i].threads[t].held[l]
  {
    hide LockOk, IsRun, PcOk, Schedulable, Inside, RoleOf;
    RunsAreSound(run, events);
    var s := run[i];
    InvHas(s);
    InsideRole(s, t, l);
    InsideRole(s, u, l);
    OneInside(s, t, u, l);
    LockSays(s, l, t);
  }

  /** In every state of every run in which a lock is free while threads wait for it, a woken thread is on the ready list or
      runs, and will test the semaphore again when it goes on. */
  lemma NoLostWakeup(run: seq<State>, events: seq<Event>, i: nat, l: LockId)
    requires IsRun(run, events) && Inv(run[0]) && i < |run| && l in run[i].locks
    requires run[i].locks[l].value > 0 && |run[i].locks[l].waiters| > 0
    ensures exists t :: t in run[i].threads && run[i].threads[t].pc == Down(l) && (t in run[i].ready || t == run[i].cur)
  {
    hide Inv, IsRun;
    RunsAreSound(run, events);
    SomebodyTries(run[i], l);
  }

  lemma SomebodyTries(s: State, l: LockId)
    requires Inv(s) && l in s.locks && s.locks[l].value > 0 && |s.locks[l].waiters| > 0
    ensures exists t :: t in s.threads && s.threads[t].pc == Down(l) && (t in s.ready || t == s.cur)
  {
    hide LockOk;
    assert LockOk(s, l);
    var t := TriesAgain(s, l);
    PcHas(s, t);
    assert t in s.threads && s.threads[t].pc == Down(l) && (t in s.ready || t == s.cur);
  }

  lemma TriesAgain(s: State, l: LockId) returns (t: Tid)
    requires l in s.locks && LockOk(s, l) && s.locks[l].value > 0 && |s.locks[l].waiters| > 0
    ensures t in s.threads && s.threads[t].pc == Down(l) && s.threads[t].status != Blocked
  {
    t :| RoleOf(s, t, l) == Trying(false);
  }

  /** In every state of every run exactly one thread is RUNNING, the ready list holds the READY threads, each once, and no
      thread is on two lists. */
  lemma ListsAreSound(run: seq<State>, events: seq<Event>, i: nat)
    requires IsRun(run, events) && Inv(run[0]) && i < |run|
    ensures var s := run[i];
            && s.cur in s.threads && (forall t :: t in s.threads ==> (s.threads[t].status == Running <==> t == s.cur))
            && Distinct(s.ready) && (forall t :: t in s.ready <==> t in s.threads && s.threads[t].status == Ready)
    ensures forall l :: l in run[i].locks ==> Distinct(run[i].locks[l].waiters)
    ensures forall l, t :: l in run[i].locks && t in run[i].locks[l].waiters ==>
              && t in run[i].threads && run[i].threads[t].status == Blocked && t !in run[i].ready
              && forall j :: j in run[i].locks && t in run[i].locks[j].waiters ==> j == l
  {
    hide IsRun, PcOk, LockOk;
    RunsAreSound(run, events);
    var s := run[i];
    InvHas(s);
    forall l, t | l in s.locks && t in s.locks[l].waiters
      ensures t in s.threads && s.threads[t].status == Blocked && s.threads[t].pc == Down(l)
    {
      LockSays(s, l, t);
    }
    forall l | l in s.locks
      ensures Distinct(s.locks[l].waiters)
    {
      WaitersDistinct(s, l);
    }
  }

  lemma WaitersDistinct(s: State, l: LockId)
    requires l in s.locks && LockOk(s, l)
    ensures Distinct(s.locks[l].waiters)
  {
    hide RoleOf;
  }

  /** One call of schedule by a thread that stays runnable (st == Running) or has just put itself to sleep. */
  ghost predicate IsRound(s: State, st: Status, s': State) {
    && Schedulable(s) && s.threads[s.cur].status == Running
    && (if s.cur == s.idle then st == Running || st == Blocked else st == Running || Sleeping(st))
    && ScheduleAsserts(WithStatus(s, s.cur, st))
    && s' == Scheduled(WithStatus(s, s.cur, st))
  }

  /** The thread at position k of the ready list runs after k + 1 calls of schedule, if nobody is woken meanwhile. */
  lemma {:induction false} RunsInTurn(run: seq<State>, sts: seq<Status>, k: nat)
    requires |run| == k + 2 && |sts| == k + 1 && k < |run[0].ready|
    requires forall i :: 0 <= i <= k ==> IsRound(run[i], sts[i], run[i + 1])
    ensures run[k + 1].cur == run[0].ready[k]
    ensures forall i :: 0 <= i <= k ==> run[i + 1].cur == run[0].ready[i]
  {
    var q := run[0].ready;
    for i := 0 to k + 1
      invariant q[i..] <= run[i].ready
      invariant forall j :: 0 <= j < i ==> run[j + 1].cur == q[j]
    {
      assert IsRound(run[i], sts[i], run[i + 1]);
      PopsFirst(run[i], sts[i], run[i + 1]);
      assert q[i..][0] == q[i] && q[i + 1..] == q[i..][1..];
    }
  }

  lemma PopsFirst(s: State, st: Status, s': State)
    requires IsRound(s, st, s') && |s.ready| > 0
    ensures s'.cur == s.ready[0] && s.ready[1..] <= s'.ready
  {
  }

  // --- Who is woken first, and who runs first ---

  predicate AsleepOn(s: State, t: Tid, l: LockId) {
    t in s.threads && s.threads[t].pc == Down(l) && s.threads[t].status == Blocked
  }

  /** The step is a sema_up on lock l. */
  predicate IsUp(s: State, e: Event, l: LockId) {
    e == Progress && s.cur in s.threads && s.threads[s.cur].pc == Up(l)
  }

  /** How many steps between states i and j are a sema_up on lock l */
  function Ups(run: seq<State>, events: seq<Event>, l: LockId, i: nat, j: nat): nat
    requires i <= j <= |events| < |run|
    decreases j
  {
    if i == j then 0 else Ups(run, events, l, i, j - 1) + if IsUp(run[j - 1], events[j - 1], l) then 1 else 0
  }

  lemma AsleepWaits(s: State, t: Tid, l: LockId)
    requires Inv(s)
    ensures AsleepOn(s, t, l) ==> l in s.locks
    ensures l in s.locks ==> (AsleepOn(s, t, l) <==> t in s.locks[l].waiters) && Distinct(s.locks[l].waiters)
  {
    hide LockOk, Schedulable;
    if t in s.threads {
      assert PcOk(s, t);
    }
    hide PcOk;
    if l in s.locks {
      LockSays(s, l, t);
      WaitersDistinct(s, l);
    }
  }

  /** schedule leaves the locks alone. */
  lemma ScheduleLeavesLocks(s: State)
    requires ScheduleAsserts(s)
    ensures Scheduled(s).locks == s.locks
  {
  }

  /** What a step does to a lock's waiters: a sema_up takes the first, and a thread that goes to sleep comes last. */
  lemma WaitersChange(s: State, e: Event, l: LockId)
    requires Inv(s) && Enabled(s, e) && Asserts(s, e) && l in s.locks
    ensures l in Next(s, e).locks
    ensures var w, w' := s.locks[l].waiters, Next(s, e).locks[l].waiters;
            if IsUp(s, e, l) then w' == (if w == [] then [] else w[1..])
            else w' == w || w' == w + [s.cur]
  {
    hide Inv, Scheduled, ScheduleAsserts;
    match e {
      case Preempt => ScheduleLeavesLocks(s);
      case Progress =>
        var k := s.threads[s.cur].pc.l;
        if s.threads[s.cur].pc.Down? && s.locks[k].value == 0 {
          ScheduleLeavesLocks(DownSleep(s, k));
        }
      case Sleep(st) => ScheduleLeavesLocks(WithStatus(At(s, Asleep), s.cur, st));
      case IdleLoop => ScheduleLeavesLocks(WithStatus(s, s.cur, Blocked));
      case _ =>
    }
  }

  lemma RunLength(run: seq<State>, events: seq<Event>)
    requires IsRun(run, events)
    ensures |run| == |events| + 1
  {
  }

  /** A run's step from state j, and what is known of it */
  lemma StepOfRun(run: seq<State>, events: seq<Event>, j: nat)
    requires IsRun(run, events) && Inv(run[0]) && j < |events|
    ensures Inv(run[j]) && Inv(run[j + 1]) && Enabled(run[j], events[j]) && Asserts(run[j], events[j])
    ensures run[j + 1] == Next(run[j], events[j])
  {
    hide Inv, Enabled, Asserts, Next;
    RunsAreSound(run, events);
  }

  /** In every run the thread at position k of a lock's waiters moves up by one with every sema_up on the lock and by nothing
      else, whoever else goes to sleep on it meanwhile. */
  lemma {:induction false} WaitsInTurn(run: seq<State>, events: seq<Event>, i: nat, j: nat, l: LockId, k: nat)
    requires IsRun(run, events) && Inv(run[0]) && i <= j < |run|
    requires l in run[i].locks && k < |run[i].locks[l].waiters| && Ups(run, events, l, i, j) <= k
    ensures l in run[j].locks
    ensures var n := Ups(run, events, l, i, j);
            k - n < |run[j].locks[l].waiters| && run[j].locks[l].waiters[k - n] == run[i].locks[l].waiters[k]
    decreases j
  {
    hide Inv, Enabled, Asserts, Next, IsUp, IsRun;
    RunLength(run, events);
    if i < j {
      WaitsInTurn(run, events, i, j - 1, l, k);
      StepOfRun(run, events, j - 1);
      WaitersChange(run[j - 1], events[j - 1], l);
    }
  }

  lemma UpWakes(s: State, e: Event, l: LockId)
    requires Inv(s) && Enabled(s, e) && Asserts(s, e) && IsUp(s, e, l) && l in s.locks && |s.locks[l].waiters| > 0
    ensures var t, s' := s.locks[l].waiters[0], Next(s, e);
            && AsleepOn(s, t, l) && t in s'.threads && s'.threads[t].status == Ready && s'.threads[t].pc == Down(l)
            && s'.ready == [t] + s.ready
  {
    hide Inv, ScheduleAsserts, Scheduled;
    FirstWaiter(s, l);
  }

  /** And the (k + 1)-th sema_up wakes it: it is READY then, first on the ready list, and tests the semaphore again. */
  lemma WokenInTurn(run: seq<State>, events: seq<Event>, i: nat, j: nat, l: LockId, k: nat)
    requires IsRun(run, events) && Inv(run[0]) && i <= j < |events|
    requires l in run[i].locks && k < |run[i].locks[l].waiters|
    requires IsUp(run[j], events[j], l) && Ups(run, events, l, i, j) == k
    ensures var t := run[i].locks[l].waiters[k];
            && AsleepOn(run[j], t, l) && t in run[j + 1].threads && run[j + 1].threads[t].status == Ready
            && run[j + 1].threads[t].pc == Down(l) && run[j + 1].ready == [t] + run[j].ready
  {
    hide Inv, Enabled, Asserts, Next, IsUp, IsRun, AsleepOn;
    RunLength(run, events);
    WaitsInTurn(run, events, i, j, l, k);
    StepOfRun(run, events, j);
    UpWakes(run[j], events[j], l);
  }

  /** Thread t waits for lock l, and u does not wait in front of it. */
  ghost predicate Ahead(s: State, l: LockId, t: Tid, u: Tid) {
    l in s.locks && exists p :: 0 <= p < |s.locks[l].waiters| && s.locks[l].waiters[p] == t && u !in s.locks[l].waiters[..p + 1]
  }

  lemma AheadAtFirst(s: State, l: LockId, t: Tid, u: Tid)
    requires Inv(s) && AsleepOn(s, t, l) && !AsleepOn(s, u, l)
    ensures Ahead(s, l, t, u)
  {
    hide Inv, AsleepOn;
    AsleepWaits(s, t, l);
    AsleepWaits(s, u, l);
    var p :| 0 <= p < |s.locks[l].waiters| && s.locks[l].waiters[p] == t;
    assert u !in s.locks[l].waiters[..p + 1];
  }

  lemma FirstTaken(w: seq<Tid>, p: nat, t: Tid, u: Tid)
    requires Distinct(w) && p < |w| && w[p] == t && u !in w[..p + 1] && t in w[1..]
    ensures p > 0 && w[1..][p - 1] == t && u !in w[1..][..p] && (u in w ==> u in w[1..])
  {
    assert w == [w[0]] + w[1..];
    var q :| 0 <= q < |w[1..]| && w[1..][q] == t;
    assert w[q + 1] == t;
    assert w[1..][..p] == w[..p + 1][1..];
  }

  lemma StillAhead(s: State, e: Event, s': State, l: LockId, t: Tid, u: Tid)
    requires Inv(s) && Inv(s') && Enabled(s, e) && Asserts(s, e) && s' == Next(s, e)
    requires Ahead(s, l, t, u) && AsleepOn(s', t, l)
    ensures Ahead(s', l, t, u) && (AsleepOn(s, u, l) ==> AsleepOn(s', u, l))
  {
    hide Inv, Enabled, Asserts, Next, AsleepOn;
    WaitersChange(s, e, l);
    AsleepWaits(s, t, l);
    AsleepWaits(s', t, l);
    AsleepWaits(s, u, l);
    AsleepWaits(s', u, l);
    var w, w' := s.locks[l].waiters, s'.locks[l].waiters;
    var p :| 0 <= p < |w| && w[p] == t && u !in w[..p + 1];
    if IsUp(s, e, l) {
      FirstTaken(w, p, t, u);
      assert w'[..p - 1 + 1] == w'[..p];
    } else {
      assert w'[..p + 1] == w[..p + 1] && w'[p] == t;
    }
  }

  /** In every run, as long as a thread sleeps on a lock, no thread is woken on it that went to sleep later. */
  lemma FirstToSleepIsFirstWoken(run: seq<State>, events: seq<Event>, l: LockId, t: Tid, u: Tid, i: nat, j: nat, n: nat)
    requires IsRun(run, events) && Inv(run[0]) && i < j <= n < |run|
    requires forall m :: i <= m <= n ==> AsleepOn(run[m], t, l)
    requires !AsleepOn(run[i], u, l) && AsleepOn(run[j], u, l)
    ensures AsleepOn(run[n], u, l)
  {
    hide Inv, Enabled, Asserts, Next, AsleepOn, IsRun, Ahead;
    RunLength(run, events);
    StepOfRun(run, events, i);
    AheadAtFirst(run[i], l, t, u);
    for m := i to n
      invariant Ahead(run[m], l, t, u) && (m >= j ==> AsleepOn(run[m], u, l))
    {
      StepOfRun(run, events, m);
      StillAhead(run[m], events[m], run[m + 1], l, t, u);
    }
  }

  /** What a step does to the ready list: one thread comes to its front, or the first one is taken and runs, or nobody leaves;
      others may come behind. */
  ghost predicate ReadyMoves(s: State, s': State) {
    || (|s'.ready| > 0 && s'.ready[1..] == s.ready && s'.ready[0] !in s.ready)
    || (|s.ready| > 0 && s.ready[1..] <= s'.ready && s'.cur == s.ready[0] && s'.cur in s'.threads
        && s'.threads[s'.cur].status == Running)
    || s.ready <= s'.ready
  }

  lemma ScheduleMoves(s: State)
    requires ScheduleAsserts(s)
    ensures ReadyMoves(s, Scheduled(s))
  {
  }

  lemma StepMoves(s: State, e: Event)
    requires Inv(s) && Enabled(s, e) && Asserts(s, e)
    ensures ReadyMoves(s, Next(s, e))
  {
    hide Inv, Scheduled, ScheduleAsserts;
    match e {
      case Preempt => ScheduleMoves(s);
      case Progress =>
        var k := s.threads[s.cur].pc.l;
        if s.threads[s.cur].pc.Down? && s.locks[k].value == 0 {
          ScheduleMoves(DownSleep(s, k));
        }
      case Sleep(st) => ScheduleMoves(WithStatus(At(s, Asleep), s.cur, st));
      case IdleLoop => ScheduleMoves(WithStatus(s, s.cur, Blocked));
      case _ =>
    }
  }

  /** In every run a thread that becomes READY from sleep comes to the front of the ready list, so that it runs next if nobody
      else is woken before the next call of schedule; and a new thread comes behind all others. */
  lemma ComersToReady(run: seq<State>, events: seq<Event>, i: nat, t: Tid)
    requires IsRun(run, events) && Inv(run[0]) && i < |events|
    requires t in run[i + 1].threads && run[i + 1].threads[t].status == Ready
    ensures t in run[i].threads && Sleeping(run[i].threads[t].status) ==> run[i + 1].ready == [t] + run[i].ready
    ensures t !in run[i].threads ==> run[i + 1].ready == run[i].ready + [t]
  {
    StepOfRun(run, events, i);
    Comers(run[i], events[i], t);
  }

  lemma ScheduleComers(s: State, t: Tid)
    requires ScheduleAsserts(s) && t in Scheduled(s).threads && Scheduled(s).threads[t].status == Ready
    ensures t in s.threads && !Sleeping(s.threads[t].status)
  {
  }

  lemma Comers(s: State, e: Event, t: Tid)
    requires Inv(s) && Enabled(s, e) && Asserts(s, e) && t in Next(s, e).threads && Next(s, e).threads[t].status == Ready
    ensures t in s.threads && Sleeping(s.threads[t].status) ==> Next(s, e).ready == [t] + s.ready
    ensures t !in s.threads ==> Next(s, e).ready == s.ready + [t]
  {
    hide Inv, Scheduled, ScheduleAsserts;
    match e {
      case Preempt => ScheduleComers(s, t);
      case Progress =>
        var k := s.threads[s.cur].pc.l;
        if s.threads[s.cur].pc.Down? && s.locks[k].value == 0 {
          ScheduleComers(DownSleep(s, k), t);
        }
      case Sleep(st) => ScheduleComers(WithStatus(At(s, Asleep), s.cur, st), t);
      case IdleLoop => ScheduleComers(WithStatus(s, s.cur, Blocked), t);
      case _ =>
    }
  }

  ghost predicate Behind(q: seq<Tid>, t: Tid, u: Tid) {
    exists i, j :: 0 <= i < j < |q| && q[i] == t && q[j] == u
  }

  lemma BehindStays(s: State, s': State, t: Tid, u: Tid)
    requires Schedulable(s) && ReadyMoves(s, s') && Behind(s.ready, t, u)
    requires t in s'.threads && s'.threads[t].status == Ready
    ensures Behind(s'.ready, t, u)
  {
  }

  lemma BehindIsReady(s: State, t: Tid, u: Tid)
    requires Inv(s) && Behind(s.ready, t, u)
    ensures u in s.threads && s.threads[u].status == Ready
  {
    hide PcOk, LockOk, Distinct;
    assert u in s.ready;
  }

  /** In every run, of two threads on the ready list the one in front runs first: as long as it is READY, so is the other. */
  lemma {:induction false} ReadyInTurn(run: seq<State>, events: seq<Event>, i: nat, n: nat, t: Tid, u: Tid)
    requires IsRun(run, events) && Inv(run[0]) && i <= n < |run| && Behind(run[i].ready, t, u)
    requires forall m :: i <= m <= n ==> t in run[m].threads && run[m].threads[t].status == Ready
    ensures Behind(run[n].ready, t, u) && u in run[n].threads && run[n].threads[u].status == Ready
    decreases n
  {
    hide Inv, Enabled, Asserts, Next, IsRun, Behind, ReadyMoves, Schedulable, Resting;
    RunLength(run, events);
    if i < n {
      ReadyInTurn(run, events, i, n - 1, t, u);
      StepOfRun(run, events, n - 1);
      InvHas(run[n - 1]);
      StepMoves(run[n - 1], events[n - 1]);
      BehindStays(run[n - 1], run[n], t, u);
    }
    RunsAreSound(run, events);
    BehindIsReady(run[n], t, u);
  }

  // --- Who goes to sleep and who wakes up, and what lock_acquire and lock_release do in all ---

  /** The thread tests a semaphore that is taken. */
  predicate FindsTaken(s: State, e: Event) {
    && e == Progress && s.cur in s.threads && s.threads[s.cur].pc.Down?
    && s.threads[s.cur].pc.l in s.locks && s.locks[s.threads[s.cur].pc.l].value == 0
  }

  /** The first of those that wait for the lock that a sema_up is about */
  predicate UpWakesFirst(s: State, e: Event, t: Tid) {
    && e == Progress && s.cur in s.threads && s.threads[s.cur].pc.Up? && s.threads[s.cur].pc.l in s.locks
    && |s.locks[s.threads[s.cur].pc.l].waiters| > 0 && t == s.locks[s.threads[s.cur].pc.l].waiters[0]
  }

  lemma ScheduleSleeps(s: State, t: Tid)
    requires ScheduleAsserts(s) && t in s.threads && t != s.idle
    ensures t in Scheduled(s).threads
    ensures Sleeping(s.threads[t].status) && t !in s.ready ==> Scheduled(s).threads[t].status == s.threads[t].status
    ensures !Sleeping(s.threads[t].status) ==> !Sleeping(Scheduled(s).threads[t].status)
  {
  }

  /** Only the running thread goes to sleep, by a thread_block of its own with the status it names, or BLOCKED because it found
      a semaphore taken; and a sleeping thread's status changes only when it is woken. The idle thread is left out. */
  ghost predicate SleepsOrWakes(s: State, e: Event, t: Tid, before: Status, after: Status) {
    && (!Sleeping(before) && Sleeping(after) <==> t == s.cur && (e.Sleep? || FindsTaken(s, e)))
    && (!Sleeping(before) && Sleeping(after) ==> after == if e.Sleep? then e.st else Blocked)
    && (Sleeping(before) && after != before <==> Sleeping(before) && (e == Wake(t) || UpWakesFirst(s, e, t)))
    && (Sleeping(before) && after != before ==> after == Ready)
  }

  lemma SleepChanges(s: State, e: Event, t: Tid)
    requires Inv(s) && Enabled(s, e) && Asserts(s, e) && t in s.threads && t in Next(s, e).threads && t != s.idle
    ensures SleepsOrWakes(s, e, t, s.threads[t].status, Next(s, e).threads[t].status)
  {
    hide Inv, Enabled, Asserts, Next, Scheduled, ScheduleAsserts, ProgressAsserts, Progressed, SleepsOrWakes;
    SleepersNotReady(s, t);
    if e.Progress? {
      Goes(s);
      ProgressSleeps(s, s.threads[s.cur].pc.l, t);
    } else if e.Preempt? || e.Sleep? || e.IdleLoop? {
      var m := Switches(s, e);
      SwitchSleeps(s, e, m, t);
    } else {
      OtherSleeps(s, e, t);
    }
  }

  /** The state in which a step calls schedule */
  lemma Switches(s: State, e: Event) returns (m: State)
    requires Enabled(s, e) && Asserts(s, e) && (e.Preempt? || e.Sleep? || e.IdleLoop?)
    ensures s.cur in s.threads && m.threads.Keys == s.threads.Keys && m.idle == s.idle && m.ready == s.ready
    ensures ScheduleAsserts(m) && Next(s, e) == Scheduled(m)
    ensures e.Sleep? ==> Sleeping(e.st)
    ensures forall t :: t in s.threads ==> m.threads[t].held == s.threads[t].held
    ensures forall t :: t in s.threads && t != s.idle ==>
              m.threads[t].status == if e.Sleep? && t == s.cur then e.st else s.threads[t].status
  {
    hide ScheduleAsserts, Scheduled;
    if e.Preempt? {
      m := s;
    } else if e.Sleep? {
      m := WithStatus(At(s, Asleep), s.cur, e.st);
    } else {
      m := WithStatus(s, s.cur, Blocked);
    }
  }

  lemma SwitchSleeps(s: State, e: Event, m: State, t: Tid)
    requires e.Preempt? || e.Sleep? || e.IdleLoop?
    requires t in s.threads && t in m.threads && t != s.idle && m.idle == s.idle && m.ready == s.ready && ScheduleAsserts(m)
    requires s.cur in s.threads && s.threads[s.cur].status == Running && s.cur !in s.ready
    requires Sleeping(s.threads[t].status) ==> t !in s.ready && t != s.cur
    requires e.Sleep? ==> Sleeping(e.st)
    requires m.threads[t].status == if e.Sleep? && t == s.cur then e.st else s.threads[t].status
    ensures t in Scheduled(m).threads
    ensures SleepsOrWakes(s, e, t, s.threads[t].status, Scheduled(m).threads[t].status)
  {
    hide Scheduled, ScheduleAsserts;
    ScheduleSleeps(m, t);
  }

  lemma OtherSleeps(s: State, e: Event, t: Tid)
    requires !(e.Preempt? || e.Sleep? || e.IdleLoop? || e.Progress?)
    requires Enabled(s, e) && Asserts(s, e) && t in s.threads && t in Next(s, e).threads
    requires s.cur in s.threads && s.threads[s.cur].status == Running
    ensures SleepsOrWakes(s, e, t, s.threads[t].status, Next(s, e).threads[t].status)
  {
    hide Scheduled, ScheduleAsserts, ProgressAsserts, Progressed;
  }

  lemma ProgressSleeps(s: State, l: LockId, t: Tid)
    requires s.cur in s.threads && s.threads[s.cur].pc != Outside && s.threads[s.cur].pc != Asleep && s.threads[s.cur].pc.l == l
    requires l in s.locks && ProgressAsserts(s, l) && s.threads[s.cur].status == Running && s.cur !in s.ready
    requires t in s.threads && t != s.idle && t in Progressed(s, l).threads
    requires Sleeping(s.threads[t].status) ==> t !in s.ready && t != s.cur
    ensures SleepsOrWakes(s, Progress, t, s.threads[t].status, Progressed(s, l).threads[t].status)
  {
    hide Scheduled, ScheduleAsserts;
    match s.threads[s.cur].pc {
      case Down(_) =>
        if s.locks[l].value == 0 {
          ScheduleSleeps(DownSleep(s, l), t);
        }
      case _ => hide DownSleep;
    }
  }

  lemma SleepersNotReady(s: State, t: Tid)
    requires Inv(s) && t in s.threads
    ensures Sleeping(s.threads[t].status) ==> t !in s.ready && t != s.cur
    ensures s.cur in s.threads && s.cur !in s.ready && s.threads[s.cur].status == Running
  {
    hide PcOk, LockOk;
  }

  /** Somewhere in lock_acquire */
  predicate InAcquire(pc: Pc) {
    pc.Enter? || pc.Down? || pc.Got? || pc.Owning?
  }

  /** The running thread's lock_acquire returns in this step. */
  predicate Returns(s: State, e: Event, s': State) {
    && e == Progress && s.cur in s.threads && s.cur in s'.threads
    && InAcquire(s.threads[s.cur].pc) && !InAcquire(s'.threads[s.cur].pc)
  }

  /** What a step does to the count of the locks that a thread holds: one more for a lock_acquire that returns, one less for a
      lock_release that begins, and nothing else. */
  function Counted(s: State, e: Event, s': State, t: Tid): multiset<LockId>
    requires t in s.threads
  {
    if t == s.cur && Returns(s, e, s') then s.threads[t].held + multiset{s.threads[t].pc.l}
    else if t == s.cur && e.Release? then s.threads[t].held - multiset{e.l}
    else s.threads[t].held
  }

  lemma ScheduleCounts(s: State, t: Tid)
    requires ScheduleAsserts(s) && t in s.threads
    ensures t in Scheduled(s).threads
    ensures Scheduled(s).threads[t].held == s.threads[t].held && Scheduled(s).threads[t].pc == s.threads[t].pc
  {
  }

  lemma ProgressCounts(s: State, l: LockId, t: Tid)
    requires s.cur in s.threads && s.threads[s.cur].pc != Outside && s.threads[s.cur].pc != Asleep && s.threads[s.cur].pc.l == l
    requires l in s.locks && ProgressAsserts(s, l) && t in s.threads && t in Progressed(s, l).threads
    requires |s.locks[l].waiters| > 0 ==> s.locks[l].waiters[0] in s.threads
    ensures Progressed(s, l).threads[t].held == Counted(s, Progress, Progressed(s, l), t)
    ensures t == s.cur && Returns(s, Progress, Progressed(s, l)) ==> Progressed(s, l).threads[t].pc == Outside
  {
    hide Scheduled, ScheduleAsserts;
    match s.threads[s.cur].pc {
      case Down(_) =>
        if s.locks[l].value == 0 {
          ScheduleCounts(DownSleep(s, l), t);
          ScheduleCounts(DownSleep(s, l), s.cur);
        }
      case _ => hide DownSleep;
    }
  }

  lemma CountChanges(s: State, e: Event, t: Tid)
    requires Inv(s) && Enabled(s, e) && Asserts(s, e) && t in s.threads && t in Next(s, e).threads
    ensures Next(s, e).threads[t].held == Counted(s, e, Next(s, e), t)
    ensures t == s.cur && Returns(s, e, Next(s, e)) ==> Next(s, e).threads[t].pc == Outside
  {
    hide Inv, Enabled, Asserts, Next, Scheduled, ScheduleAsserts, ProgressAsserts, Progressed, Counted, Returns;
    if e.Progress? {
      Goes(s);
      WaiterLives(s, s.threads[s.cur].pc.l);
      ProgressCounts(s, s.threads[s.cur].pc.l, t);
    } else {
      OtherCounts(s, e, t);
    }
  }

  lemma WaiterLives(s: State, l: LockId)
    requires Inv(s) && l in s.locks
    ensures |s.locks[l].waiters| > 0 ==> s.locks[l].waiters[0] in s.threads
  {
    if |s.locks[l].waiters| > 0 {
      hide Inv;
      FirstWaiter(s, l);
    }
  }

  lemma OtherCounts(s: State, e: Event, t: Tid)
    requires Enabled(s, e) && Asserts(s, e) && !e.Progress? && t in s.threads && t in Next(s, e).threads
    ensures Next(s, e).threads[t].held == Counted(s, e, Next(s, e), t)
    ensures !Returns(s, e, Next(s, e))
  {
    hide Scheduled, ScheduleAsserts, ProgressAsserts, Progressed;
    if e.Preempt? || e.Sleep? || e.IdleLoop? {
      hide Enabled, Asserts, Next;
      var m := Switches(s, e);
      ScheduleCounts(m, t);
    }
  }

  /** In every run lock_acquire returns only to a thread that holds the lock then, once more than before. */
  lemma AcquireReturnsHolding(run: seq<State>, events: seq<Event>, i: nat)
    requires IsRun(run, events) && Inv(run[0]) && i < |events| && Returns(run[i], events[i], run[i + 1])
    ensures var t, l := run[i].cur, run[i].threads[run[i].cur].pc.l;
            && run[i + 1].threads[t].pc == Outside && run[i + 1].threads[t].held[l] == run[i].threads[t].held[l] + 1
            && l in run[i + 1].locks && run[i + 1].locks[l].value == 0 && run[i + 1].locks[l].holder == Some(t)
            && run[i + 1].locks[l].repeat == run[i + 1].threads[t].held[l]
  {
    hide Inv, Enabled, Asserts, Next, IsRun;
    RunLength(run, events);
    StepOfRun(run, events, i);
    var t, l := run[i].cur, run[i].threads[run[i].cur].pc.l;
    CountChanges(run[i], events[i], t);
    HeldIsLocked(run[i + 1], t, l);
    MutualExclusion(run, events, i + 1, t, t, l);
  }

  lemma HeldIsLocked(s: State, t: Tid, l: LockId)
    requires Inv(s) && t in s.threads && s.threads[t].held[l] > 0
    ensures l in s.locks && Inside(s.threads[t], l)
  {
    hide LockOk, Schedulable;
    assert PcOk(s, t) && l in s.threads[t].held;
  }

  lemma Calls(s: State, l: LockId)
    requires Enabled(s, Acquire(l)) && Asserts(s, Acquire(l))
    ensures s.cur in s.threads && s.threads[s.cur].pc == Outside && l in s.locks && Next(s, Acquire(l)) == At(s, Enter(l))
  {
  }

  lemma Lets(s: State, l: LockId)
    requires Enabled(s, Release(l)) && Asserts(s, Release(l))
    ensures s.cur in s.threads && s.threads[s.cur].pc == Outside && l in s.locks && s.locks[l].repeat > 0
    ensures Next(s, Release(l)) == ReleaseStep(s, l)
  {
  }

  lemma Goes(s: State)
    requires Enabled(s, Progress) && Asserts(s, Progress)
    ensures s.cur in s.threads && s.threads[s.cur].pc != Outside && s.threads[s.cur].pc != Asleep
    ensures s.threads[s.cur].pc.l in s.locks && ProgressAsserts(s, s.threads[s.cur].pc.l)
    ensures Next(s, Progress) == Progressed(s, s.threads[s.cur].pc.l)
  {
  }

  lemma FreeSays(s: State, l: LockId)
    requires l in s.locks && LockOk(s, l) && s.locks[l].value == 1
    ensures s.locks[l].holder == None && s.locks[l].repeat == 0 && forall t :: !RoleOf(s, t, l).Inside()
  {
    hide RoleOf;
    assert forall t :: s.locks[l].holder == Some(t) ==> RoleOf(s, t, l).Inside();
  }

  /** Nobody holds a free lock. */
  lemma FreeLock(s: State, l: LockId)
    requires Inv(s) && l in s.locks && s.locks[l].value == 1
    ensures s.locks[l].holder == None && s.locks[l].repeat == 0
    ensures s.cur in s.threads && s.threads[s.cur].held[l] == 0
  {
    hide LockOk, PcOk, Schedulable, RoleOf;
    InvHas(s);
    PcHas(s, s.cur);
    FreeSays(s, l);
    if s.threads[s.cur].held[l] > 0 {
      InsideRole(s, s.cur, l);
    }
  }

  lemma WaiterIsDown(s: State, l: LockId, t: Tid)
    requires RoleOf(s, t, l) == Trying(true)
    ensures t in s.threads && s.threads[t].pc == Down(l)
  {
  }

  /** The semaphore of a lock that is held is taken, and its holder does not wait for it. */
  lemma ReleasedLock(s: State, l: LockId)
    requires Inv(s) && l in s.locks && s.cur in s.threads && s.threads[s.cur].pc == Outside && s.threads[s.cur].held[l] > 0
    ensures s.locks[l].value == 0 && (|s.locks[l].waiters| > 0 ==> s.locks[l].waiters[0] in s.threads && s.locks[l].waiters[0] != s.cur)
  {
    hide LockOk, PcOk, Schedulable, RoleOf;
    InvHas(s);
    PcHas(s, s.cur);
    InsideRole(s, s.cur, l);
    LockSays(s, l, s.cur);
    if |s.locks[l].waiters| > 0 {
      var w := s.locks[l].waiters[0];
      assert w in s.locks[l].waiters;
      LockSays(s, l, w);
      WaiterIsDown(s, l, w);
    }
  }

  /** A thread that calls lock_acquire on a free lock and is not interrupted holds it after the call, once. */
  lemma AcquireWhenFree(run: seq<State>, events: seq<Event>, l: LockId)
    requires IsRun(run, events) && Inv(run[0]) && events == [Acquire(l), Progress, Progress, Progress, Progress]
    requires l in run[0].locks && run[0].locks[l].value == 1
    ensures var s, s' := run[0], run[5];
            && s'.cur == s.cur && s.cur in s.threads && s'.ready == s.ready
            && s'.threads == s.threads[s.cur := s.threads[s.cur].(held := s.threads[s.cur].held + multiset{l})]
            && s.threads[s.cur].held[l] == 0
            && s'.locks == s.locks[l := Lock(0, s.locks[l].waiters, Some(s.cur), 1)]
  {
    hide Inv, Enabled, Asserts, Next, IsRun;
    RunLength(run, events);
    var s := run[0];
    StepOfRun(run, events, 0);
    StepOfRun(run, events, 1);
    StepOfRun(run, events, 2);
    StepOfRun(run, events, 3);
    StepOfRun(run, events, 4);
    FreeLock(s, l);
    Calls(s, l);
    Goes(run[1]);
    Goes(run[2]);
    Goes(run[3]);
    Goes(run[4]);
  }

  /** A thread that calls lock_acquire on a lock that it holds only counts. */
  lemma AcquireAgain(run: seq<State>, events: seq<Event>, l: LockId)
    requires IsRun(run, events) && Inv(run[0]) && events == [Acquire(l), Progress]
    requires run[0].cur in run[0].threads && run[0].threads[run[0].cur].held[l] > 0
    ensures var s, s' := run[0], run[2];
            && s'.cur == s.cur && s'.ready == s.ready && l in s.locks
            && s'.threads == s.threads[s.cur := s.threads[s.cur].(held := s.threads[s.cur].held + multiset{l})]
            && s'.locks == s.locks[l := s.locks[l].(repeat := s.locks[l].repeat + 1)]
  {
    hide Inv, Enabled, Asserts, Next, IsRun;
    RunLength(run, events);
    StepOfRun(run, events, 0);
    StepOfRun(run, events, 1);
    Calls(run[0], l);
    CurHolds(run[0], l);
    Goes(run[1]);
  }

  /** A lock_release that is not the last one only counts. */
  lemma ReleaseOnce(run: seq<State>, events: seq<Event>, l: LockId)
    requires IsRun(run, events) && Inv(run[0]) && events == [Release(l)]
    requires run[0].cur in run[0].threads && run[0].threads[run[0].cur].held[l] > 1
    ensures var s, s' := run[0], run[1];
            && s'.cur == s.cur && s'.ready == s.ready && l in s.locks && s.locks[l].repeat > 1
            && s'.threads == s.threads[s.cur := s.threads[s.cur].(held := s.threads[s.cur].held - multiset{l})]
            && s'.locks == s.locks[l := s.locks[l].(repeat := s.locks[l].repeat - 1)]
  {
    hide Inv, Enabled, Asserts, Next, IsRun;
    RunLength(run, events);
    StepOfRun(run, events, 0);
    Lets(run[0], l);
    CurHolds(run[0], l);
  }

  /** The last lock_release, not interrupted, leaves the lock free and wakes the first thread that waits, if any. */
  lemma ReleaseLast(run: seq<State>, events: seq<Event>, l: LockId)
    requires IsRun(run, events) && Inv(run[0]) && events == [Release(l), Progress, Progress]
    requires run[0].cur in run[0].threads && run[0].threads[run[0].cur].held[l] == 1
    ensures var s, s' := run[0], run[3];
            && s'.cur == s.cur && l in s.locks && s'.cur in s'.threads
            && s'.threads[s.cur] == s.threads[s.cur].(held := s.threads[s.cur].held - multiset{l})
            && var w := s.locks[l].waiters;
               && s'.locks == s.locks[l := Lock(1, if w == [] then [] else w[1..], None, 0)]
               && s'.ready == (if w == [] then [] else [w[0]]) + s.ready
  {
    hide Inv, Enabled, Asserts, Next, IsRun;
    RunLength(run, events);
    StepOfRun(run, events, 0);
    StepOfRun(run, events, 1);
    StepOfRun(run, events, 2);
    Lets(run[0], l);
    CurHolds(run[0], l);
    ReleasedLock(run[0], l);
    Goes(run[1]);
    Goes(run[2]);
  }
}
