/** userprog/wait_exit.c, userprog/fork.c's process tree and thread.c's process identifiers: fork, exit, wait and the
    adoption of orphans, as steps of interleaved processes. A step runs from one point where the process may be switched
    away from to the next. */
module Processes {
  import opened Words
  import opened Bitmaps

  type Pid = nat

  const MAX_PIDS: nat := 1024
  const INIT: Pid := 1

  datatype Status = Runnable | Waiting | Hanging

  /** Where a process is: in sys_fork with its child's pid allocated, in the loop of sys_wait after it has slept, in sys_exit
      after its children have been given away, or elsewhere. */
  datatype Phase = Elsewhere | Forking(child: Pid) | InWait | Exiting

  /** The part of `struct task_struct` that the protocol uses. `serial` numbers the processes in the order in which they
      came to be; a pid may be used again, a serial number is not. */
  datatype Proc = Proc(serial: nat, parent: Pid, status: Status, exitStatus: int, phase: Phase)

  /** thread_all_list, the processes on it, the pid bitmap, and what has happened: the next serial number, and by serial
      number the statuses that were passed to sys_exit and those that sys_wait has returned. */
  datatype State = State(all: seq<Pid>, procs: map<Pid, Proc>, bits: seq<bool>, next: nat, exited: map<nat, int>,
                         returned: map<nat, int>)

  predicate IsChild(s: State, c: Pid, p: Pid) {
    c in s.procs && s.procs[c].parent == p
  }

  predicate HangingChild(s: State, c: Pid, p: Pid) {
    IsChild(s, c, p) && s.procs[c].status == Hanging
  }

  /** A pid is taken: its process is on the list, or is about to be. */
  ghost predicate Taken(s: State, pid: Pid) {
    pid in s.procs || exists p :: p in s.procs && s.procs[p].phase == Forking(pid)
  }

  // --- The invariant ---

  ghost predicate PidsOk(s: State) {
    && Distinct(s.all) && (forall p :: p in s.all <==> p in s.procs)
    && |s.bits| == MAX_PIDS
    && (forall p :: p in s.procs ==> 1 <= p <= MAX_PIDS)
    && (forall p :: p in s.procs && s.procs[p].phase.Forking? ==>
          1 <= s.procs[p].phase.child <= MAX_PIDS && s.procs[p].phase.child !in s.procs)
    && (forall p, q :: p in s.procs && q in s.procs && s.procs[p].phase.Forking? && s.procs[p].phase == s.procs[q].phase ==> p == q)
    && (forall i :: 0 <= i < MAX_PIDS ==> (s.bits[i] <==> Taken(s, i + 1)))
  }

  ghost predicate FamilyOk(s: State) {
    && INIT in s.procs && s.procs[INIT].parent == 0
    && (forall p :: p in s.procs && s.procs[p].parent != 0 ==> s.procs[p].parent in s.procs)
    && (forall p :: p in s.procs && (s.procs[p].status == Hanging || s.procs[p].phase == Exiting) ==>
          && p != INIT && s.procs[p].parent != 0 && s.procs[p].phase == Exiting
          && forall c :: !IsChild(s, c, p))
  }

  /** A process that sleeps in sys_wait has children, none of which hangs (but init may have adopted some that do); and one
      that has been woken in it has a child that hangs. */
  ghost predicate WaitersOk(s: State) {
    && (forall p :: p in s.procs && s.procs[p].status == Waiting ==>
          s.procs[p].phase == InWait && (p != INIT ==> forall c :: !HangingChild(s, c, p)))
    && (forall p :: p in s.procs && s.procs[p].status == Waiting && p != INIT ==> exists c :: IsChild(s, c, p))
    && (forall p :: p in s.procs && s.procs[p].status == Runnable && s.procs[p].phase == InWait ==>
          exists c :: HangingChild(s, c, p))
  }

  ghost predicate SerialsOk(s: State) {
    && (forall p :: p in s.procs ==> s.procs[p].serial < s.next && s.procs[p].serial !in s.returned)
    && (forall p, q :: p in s.procs && q in s.procs && s.procs[p].serial == s.procs[q].serial ==> p == q)
    && (forall k :: k in s.exited ==> k < s.next)
    && (forall k :: k in s.returned ==> k in s.exited && s.returned[k] == s.exited[k])
    && (forall p :: p in s.procs && s.procs[p].phase != Exiting ==> s.procs[p].serial !in s.exited)
    && (forall p :: p in s.procs && s.procs[p].phase == Exiting ==>
          s.procs[p].serial in s.exited && s.exited[s.procs[p].serial] == s.procs[p].exitStatus)
  }

  ghost predicate Inv(s: State) {
    PidsOk(s) && FamilyOk(s) && WaitersOk(s) && SerialsOk(s)
  }

  // --- The steps ---

  /** bitmap_scan for one clear bit */
  function LowestClear(bits: seq<bool>, i: nat): nat
    requires i <= |bits|
    decreases |bits| - i
  {
    if i == |bits| || !bits[i] then i else LowestClear(bits, i + 1)
  }

  lemma {:induction false} LowestClearIs(bits: seq<bool>, i: nat)
    requires i <= |bits|
    ensures var k := LowestClear(bits, i); i <= k <= |bits| && (forall j :: i <= j < k ==> bits[j]) && (k < |bits| ==> !bits[k])
    decreases |bits| - i
  {
    if i < |bits| && bits[i] {
      LowestClearIs(bits, i + 1);
    }
  }

  function With(s: State, p: Pid, r: Proc): State {
    s.(procs := s.procs[p := r])
  }

  /** thread_start or process_execute: the new thread has no parent. */
  function ThreadStart(s: State): State
    requires LowestClear(s.bits, 0) < |s.bits|
  {
    var i := LowestClear(s.bits, 0);
    With(s, i + 1, Proc(s.next, 0, Runnable, 0, Elsewhere)).(all := s.all + [i + 1], bits := s.bits[i := true], next := s.next + 1)
  }

  /** sys_fork up to the allocation of the child's pid in copy_pcb */
  function ForkBegin(s: State, p: Pid): State
    requires p in s.procs && LowestClear(s.bits, 0) < |s.bits|
  {
    var i := LowestClear(s.bits, 0);
    With(s, p, s.procs[p].(phase := Forking(i + 1))).(bits := s.bits[i := true])
  }

  /** And from there to its return: the child is a copy of its parent. */
  function ForkEnd(s: State, p: Pid): State
    requires p in s.procs && s.procs[p].phase.Forking?
  {
    var c := s.procs[p].phase.child;
    With(With(s, p, s.procs[p].(phase := Elsewhere)), c, Proc(s.next, p, Runnable, s.procs[p].exitStatus, Elsewhere))
    .(all := s.all + [c], next := s.next + 1)
  }

  /** init_adopt_a_child over the whole list */
  function Adopted(procs: map<Pid, Proc>, p: Pid): map<Pid, Proc> {
    map q | q in procs :: if procs[q].parent == p then procs[q].(parent := INIT) else procs[q]
  }

  /** sys_exit up to the release of the process's resources, where it may be switched away from */
  function ExitBegin(s: State, p: Pid, st: int): State
    requires p in s.procs
  {
    var t := s.(procs := Adopted(s.procs[p := s.procs[p].(exitStatus := st)], p));
    With(t, p, t.procs[p].(phase := Exiting)).(exited := s.exited[s.procs[p].serial := st])
  }

  /** And from there on: the parent is woken if it sleeps in sys_wait. */
  function ExitEnd(s: State, p: Pid): State
    requires p in s.procs && s.procs[p].parent in s.procs
  {
    var q := s.procs[p].parent;
    var t := if s.procs[q].status == Waiting then With(s, q, s.procs[q].(status := Runnable)) else s;
    With(t, p, t.procs[p].(status := Hanging))
  }

  /** list_traversal: the first process on the list that has a property */
  function First(all: seq<Pid>, f: Pid -> bool): (r: int)
    ensures -1 <= r < |all|
  {
    if |all| == 0 then -1
    else if f(all[0]) then 0
    else
      var r := First(all[1..], f);
      if r == -1 then -1 else r + 1
  }

  lemma {:induction false} FirstIs(all: seq<Pid>, f: Pid -> bool)
    ensures var r := First(all, f);
            if r == -1 then forall p :: p in all ==> !f(p)
            else f(all[r]) && forall i :: 0 <= i < r ==> !f(all[i])
  {
    if |all| > 0 && !f(all[0]) {
      FirstIs(all[1..], f);
      assert all == [all[0]] + all[1..];
    }
  }

  function Place(all: seq<Pid>, c: Pid): (r: int)
    ensures -1 <= r < |all|
  {
    First(all, (q: Pid) => q == c)
  }

  /** list_traversal with find_hanging_child, or with find_child */
  function FirstChild(s: State, p: Pid, hanging: bool): (r: int)
    ensures -1 <= r < |s.all|
  {
    First(s.all, (c: Pid) => if hanging then HangingChild(s, c, p) else IsChild(s, c, p))
  }

  lemma FirstChildIs(s: State, p: Pid, hanging: bool)
    ensures var r := FirstChild(s, p, hanging);
            if r == -1 then forall c :: c in s.all ==> !(if hanging then HangingChild(s, c, p) else IsChild(s, c, p))
            else if hanging then HangingChild(s, s.all[r], p) else IsChild(s, s.all[r], p)
    ensures hanging ==> forall j :: 0 <= j < FirstChild(s, p, hanging) ==> !HangingChild(s, s.all[j], p)
  {
    FirstIs(s.all, (c: Pid) => if hanging then HangingChild(s, c, p) else IsChild(s, c, p));
  }

  /** What one pass through sys_wait's loop comes to. */
  datatype Answer = Child(pid: Pid, status: int) | NoChild | Asleep

  function WaitAnswer(s: State, p: Pid): Answer {
    var i := FirstChild(s, p, true);
    if i != -1 then (if s.all[i] in s.procs then Child(s.all[i], s.procs[s.all[i]].exitStatus) else NoChild)
    else if FirstChild(s, p, false) == -1 then NoChild
    else Asleep
  }

  /** thread_exit takes process c off the list and releases its pid. */
  function Reaped(s: State, c: Pid): State
    requires c in s.procs && 1 <= c <= |s.bits| && Place(s.all, c) != -1
  {
    var i := Place(s.all, c);
    s.(all := s.all[..i] + s.all[i + 1..], procs := s.procs - {c}, bits := s.bits[c - 1 := false],
       returned := s.returned[s.procs[c].serial := s.procs[c].exitStatus])
  }

  /** One pass through sys_wait's loop. */
  function WaitPass(s: State, p: Pid): State
    requires p in s.procs
    requires var a := WaitAnswer(s, p); a.Child? ==> a.pid in s.procs && a.pid != p && 1 <= a.pid <= |s.bits| && Place(s.all, a.pid) != -1
  {
    match WaitAnswer(s, p)
    case Child(c, _) => With(Reaped(s, c), p, s.procs[p].(phase := Elsewhere))
    case NoChild => With(s, p, s.procs[p].(phase := Elsewhere))
    case Asleep => With(s, p, s.procs[p].(status := Waiting, phase := InWait))
  }

  // --- Each step keeps the invariant ---

  lemma FreePid(s: State)
    requires PidsOk(s) && LowestClear(s.bits, 0) < |s.bits|
    ensures var pid := LowestClear(s.bits, 0) + 1; 1 <= pid <= MAX_PIDS && !Taken(s, pid)
    ensures forall pid :: 1 <= pid <= LowestClear(s.bits, 0) ==> Taken(s, pid)
  {
    LowestClearIs(s.bits, 0);
    forall pid: Pid | 1 <= pid <= LowestClear(s.bits, 0)
      ensures Taken(s, pid)
    {
      assert s.bits[pid - 1];
    }
  }

  lemma PidRange(s: State)
    requires PidsOk(s)
    ensures 0 !in s.procs
  {
  }

  lemma ThreadStartOk(s: State)
    requires Inv(s) && LowestClear(s.bits, 0) < |s.bits|
    ensures Inv(ThreadStart(s))
  {
    hide WaitersOk, FamilyOk, SerialsOk, PidsOk;
    FreePid(s);
    var pid := LowestClear(s.bits, 0) + 1;
    NotPending(s, pid);
    AddedPids(s, ThreadStart(s), pid);
    PidRange(s);
    NewProcess(s, ThreadStart(s), pid);
  }

  lemma NotPending(s: State, pid: Pid)
    requires !Taken(s, pid)
    ensures forall p :: p in s.procs ==> s.procs[p].phase != Forking(pid)
  {
  }

  lemma AddedPids(s: State, s': State, pid: Pid)
    requires PidsOk(s) && pid !in s.procs && 1 <= pid <= MAX_PIDS && pid in s'.procs && s'.procs[pid].phase == Elsewhere
    requires s'.all == s.all + [pid] && s'.procs.Keys == s.procs.Keys + {pid}
    requires forall p :: p in s.procs ==>
               s'.procs[p].phase == (if s.procs[p].phase == Forking(pid) then Elsewhere else s.procs[p].phase)
    requires s'.bits == s.bits[pid - 1 := true]
    ensures PidsOk(s')
  {
    hide Taken;
    AddedBits(s, s', pid);
    AddedList(s.all, pid);
  }

  lemma AddedList(all: seq<Pid>, pid: Pid)
    requires Distinct(all) && pid !in all
    ensures Distinct(all + [pid]) && forall p :: p in all + [pid] <==> p in all || p == pid
  {
  }

  lemma AddedBits(s: State, s': State, pid: Pid)
    requires PidsOk(s) && pid !in s.procs && 1 <= pid <= MAX_PIDS && pid in s'.procs && s'.procs[pid].phase == Elsewhere
    requires s'.all == s.all + [pid] && s'.procs.Keys == s.procs.Keys + {pid}
    requires forall p :: p in s.procs ==>
               s'.procs[p].phase == (if s.procs[p].phase == Forking(pid) then Elsewhere else s.procs[p].phase)
    requires s'.bits == s.bits[pid - 1 := true]
    ensures forall i :: 0 <= i < MAX_PIDS ==> (s'.bits[i] <==> Taken(s', i + 1))
  {
    hide Distinct;
    forall i | 0 <= i < MAX_PIDS
      ensures s'.bits[i] <==> Taken(s', i + 1)
    {
      if s.bits[i] && i + 1 != pid && i + 1 !in s.procs {
        var p :| p in s.procs && s.procs[p].phase == Forking(i + 1);
        assert s'.procs[p].phase == Forking(i + 1);
      }
      if i + 1 != pid && Taken(s', i + 1) && i + 1 !in s'.procs {
        var p :| p in s'.procs && s'.procs[p].phase == Forking(i + 1);
        assert p in s.procs && s.procs[p].phase == Forking(i + 1);
      }
    }
  }

  /** A new process without children joins; the others keep their parents, statuses and places in sys_wait and sys_exit. */
  ghost predicate Joined(s: State, s': State, pid: Pid) {
    && pid !in s.procs && pid in s'.procs && 0 !in s.procs
    && s'.procs.Keys == s.procs.Keys + {pid} && s'.next == s.next + 1 && s'.returned == s.returned && s'.exited == s.exited
    && (forall p :: p in s.procs ==>
          && s'.procs[p].(phase := Elsewhere) == s.procs[p].(phase := Elsewhere)
          && (s'.procs[p].phase == s.procs[p].phase || (s.procs[p].phase.Forking? && s'.procs[p].phase == Elsewhere)))
    && var r := s'.procs[pid];
       && r.serial == s.next && r.status == Runnable && r.phase == Elsewhere
       && (r.parent != 0 ==> r.parent in s.procs && s.procs[r.parent].phase.Forking?)
  }

  lemma NewProcess(s: State, s': State, pid: Pid)
    requires FamilyOk(s) && WaitersOk(s) && SerialsOk(s) && Joined(s, s', pid)
    ensures FamilyOk(s') && WaitersOk(s') && SerialsOk(s')
  {
    hide WaitersOk, FamilyOk, SerialsOk, Joined;
    NewMember(s, s', pid);
    NewWaiter(s, s', pid);
    NewSerial(s, s', pid);
  }

  lemma NewMember(s: State, s': State, pid: Pid)
    requires FamilyOk(s) && Joined(s, s', pid)
    ensures FamilyOk(s')
  {
    forall p, c | p in s'.procs && (s'.procs[p].status == Hanging || s'.procs[p].phase == Exiting)
      ensures !IsChild(s', c, p)
    {
      assert p in s.procs && !IsChild(s, c, p);
    }
  }

  lemma JoinedSerials(s: State, s': State, pid: Pid)
    requires Joined(s, s', pid)
    ensures s'.next == s.next + 1 && s'.returned == s.returned && s'.exited == s.exited && s'.procs.Keys == s.procs.Keys + {pid}
    ensures s'.procs[pid].serial == s.next && s'.procs[pid].phase == Elsewhere
    ensures forall p :: p in s.procs ==>
              && p != pid && s'.procs[p].serial == s.procs[p].serial && s'.procs[p].exitStatus == s.procs[p].exitStatus
              && (s'.procs[p].phase == Exiting <==> s.procs[p].phase == Exiting)
  {
  }

  lemma NewSerial(s: State, s': State, pid: Pid)
    requires SerialsOk(s) && Joined(s, s', pid)
    ensures SerialsOk(s')
  {
    JoinedSerials(s, s', pid);
    hide Joined;
  }

  lemma NewWaiter(s: State, s': State, pid: Pid)
    requires WaitersOk(s) && FamilyOk(s) && Joined(s, s', pid)
    ensures WaitersOk(s')
  {
    forall p | p in s'.procs && s'.procs[p].status == Waiting && p != INIT
      ensures exists c :: IsChild(s', c, p)
      ensures forall c :: !HangingChild(s', c, p)
    {
      var c :| IsChild(s, c, p);
      assert IsChild(s', c, p);
      forall d
        ensures !HangingChild(s', d, p)
      {
        assert !HangingChild(s, d, p);
      }
    }
    forall p | p in s'.procs && s'.procs[p].status == Runnable && s'.procs[p].phase == InWait
      ensures exists c :: HangingChild(s', c, p)
    {
      var c :| HangingChild(s, c, p);
      assert HangingChild(s', c, p);
    }
  }

  lemma ForkBeginOk(s: State, p: Pid)
    requires Inv(s) && p in s.procs && s.procs[p].status == Runnable && s.procs[p].phase == Elsewhere
    requires LowestClear(s.bits, 0) < |s.bits|
    ensures Inv(ForkBegin(s, p))
  {
    hide PidsOk, FamilyOk, SerialsOk, WaitersOk, Taken;
    FreePid(s);
    var pid := LowestClear(s.bits, 0) + 1;
    PendingPid(s, ForkBegin(s, p), p, pid);
    SameFamily(s, ForkBegin(s, p));
  }

  lemma PendingPid(s: State, s': State, p: Pid, pid: Pid)
    requires PidsOk(s) && p in s.procs && s.procs[p].phase == Elsewhere && 1 <= pid <= MAX_PIDS && !Taken(s, pid)
    requires s' == With(s, p, s.procs[p].(phase := Forking(pid))).(bits := s.bits[pid - 1 := true])
    ensures PidsOk(s')
  {
    forall q | q in s.procs && s.procs[q].phase.Forking?
      ensures s.procs[q].phase.child != pid
    {
    }
    forall i | 0 <= i < MAX_PIDS
      ensures s'.bits[i] <==> Taken(s', i + 1)
    {
      if i + 1 == pid {
        assert s'.procs[p].phase == Forking(i + 1);
      } else if s.bits[i] && i + 1 !in s.procs {
        var q :| q in s.procs && s.procs[q].phase == Forking(i + 1);
        assert s'.procs[q].phase == Forking(i + 1);
      }
    }
  }

  /** Parents, statuses, serial numbers and the places in sys_wait and sys_exit are the same. */
  lemma SameFamily(s: State, s': State)
    requires FamilyOk(s) && WaitersOk(s) && SerialsOk(s)
    requires s'.procs.Keys == s.procs.Keys && s'.next == s.next && s'.returned == s.returned && s'.exited == s.exited
    requires forall p :: p in s.procs ==>
               && s'.procs[p].(phase := Elsewhere) == s.procs[p].(phase := Elsewhere)
               && (s'.procs[p].phase == s.procs[p].phase
                   || (s.procs[p].status == Runnable && s.procs[p].phase == Elsewhere && s'.procs[p].phase.Forking?))
    ensures FamilyOk(s') && WaitersOk(s') && SerialsOk(s')
  {
    hide SerialsOk;
    assert forall c, p :: IsChild(s', c, p) == IsChild(s, c, p);
    assert forall c, p :: HangingChild(s', c, p) == HangingChild(s, c, p);
    SameSerials(s, s');
  }

  lemma SameSerials(s: State, s': State)
    requires SerialsOk(s) && s'.procs.Keys == s.procs.Keys
    requires s'.next == s.next && s'.returned == s.returned && s'.exited == s.exited
    requires forall p :: p in s.procs ==>
               && s'.procs[p].serial == s.procs[p].serial && s'.procs[p].exitStatus == s.procs[p].exitStatus
               && (s'.procs[p].phase == Exiting <==> s.procs[p].phase == Exiting)
    ensures SerialsOk(s')
  {
  }

  lemma ForkEndOk(s: State, p: Pid)
    requires Inv(s) && p in s.procs && s.procs[p].status == Runnable && s.procs[p].phase.Forking?
    ensures Inv(ForkEnd(s, p))
  {
    hide FamilyOk, SerialsOk, WaitersOk, PidsOk, Joined;
    var s' := ForkEnd(s, p);
    var c := s.procs[p].phase.child;
    ForkPids(s, p);
    assert s'.procs.Keys == s.procs.Keys + {c};
    assert s'.bits == s.bits[c - 1 := true];
    PidRange(s);
    AddedPids(s, s', c);
    ForkJoins(s, p);
    NewProcess(s, s', c);
  }

  lemma ForkJoins(s: State, p: Pid)
    requires 0 !in s.procs && p in s.procs && p != 0 && s.procs[p].phase.Forking? && s.procs[p].phase.child !in s.procs
    requires forall q :: q in s.procs && s.procs[q].phase == s.procs[p].phase ==> q == p
    ensures Joined(s, ForkEnd(s, p), s.procs[p].phase.child)
  {
  }

  lemma ForkPids(s: State, p: Pid)
    requires PidsOk(s) && p in s.procs && s.procs[p].phase.Forking?
    ensures var c := s.procs[p].phase.child;
            && 1 <= c <= MAX_PIDS && c !in s.procs && |s.bits| == MAX_PIDS && s.bits[c - 1] && p != 0
            && forall q :: q in s.procs && s.procs[q].phase == Forking(c) ==> q == p
  {
    assert Taken(s, s.procs[p].phase.child - 1 + 1);
  }

  // --- sys_exit ---

  lemma ExitBeginOk(s: State, p: Pid, st: int)
    requires Inv(s) && p in s.procs && s.procs[p].status == Runnable && s.procs[p].phase == Elsewhere && s.procs[p].parent != 0
    ensures Inv(ExitBegin(s, p, st))
  {
    hide FamilyOk, SerialsOk, WaitersOk;
    var s' := ExitBegin(s, p, st);
    AdoptedIs(s, p, st);
    SamePids(s, s');
    ExitBeginFamily(s, s', p);
    ExitBeginSerials(s, s', p);
    ExitBeginWaiters(s, s', p);
  }

  /** What ExitBegin changes: p's children get init as their parent, and p is on its way out. */
  ghost predicate GaveAway(s: State, s': State, p: Pid) {
    && p in s.procs && p != 0 && p != INIT && s'.procs.Keys == s.procs.Keys
    && s'.procs[p].phase == Exiting && s.procs[p].phase == Elsewhere && s.procs[p].status == Runnable && s.procs[p].parent != 0
    && (forall q :: q in s.procs ==>
          && s'.procs[q].parent == (if s.procs[q].parent == p then INIT else s.procs[q].parent)
          && s'.procs[q].status == s.procs[q].status && s'.procs[q].serial == s.procs[q].serial
          && (q != p ==> s'.procs[q].phase == s.procs[q].phase && s'.procs[q].exitStatus == s.procs[q].exitStatus))
  }

  lemma AdoptedIs(s: State, p: Pid, st: int)
    requires FamilyOk(s) && p in s.procs && p != 0
    requires s.procs[p].status == Runnable && s.procs[p].phase == Elsewhere && s.procs[p].parent != 0
    ensures var s' := ExitBegin(s, p, st);
            && GaveAway(s, s', p) && s'.procs[p].exitStatus == st && s'.exited == s.exited[s.procs[p].serial := st]
  {
  }

  /** No process joins or leaves, and no pid is taken or released. */
  lemma SamePids(s: State, s': State)
    requires PidsOk(s) && s'.all == s.all && s'.bits == s.bits && s'.procs.Keys == s.procs.Keys
    requires forall p :: p in s.procs ==>
               s'.procs[p].phase == s.procs[p].phase || (!s.procs[p].phase.Forking? && !s'.procs[p].phase.Forking?)
    ensures PidsOk(s')
  {
    forall i | 0 <= i < MAX_PIDS
      ensures s'.bits[i] <==> Taken(s', i + 1)
    {
      if Taken(s, i + 1) && i + 1 !in s.procs {
        var p :| p in s.procs && s.procs[p].phase == Forking(i + 1);
        assert s'.procs[p].phase == Forking(i + 1);
      }
      if Taken(s', i + 1) && i + 1 !in s'.procs {
        var p :| p in s'.procs && s'.procs[p].phase == Forking(i + 1);
        assert s.procs[p].phase == Forking(i + 1);
      }
    }
  }

  lemma ExitBeginFamily(s: State, s': State, p: Pid)
    requires FamilyOk(s) && GaveAway(s, s', p)
    ensures FamilyOk(s')
  {
    forall q, c | q in s'.procs && (s'.procs[q].status == Hanging || s'.procs[q].phase == Exiting)
      ensures !IsChild(s', c, q)
    {
      assert q != p ==> !IsChild(s, c, q);
    }
  }

  lemma ExitBeginSerials(s: State, s': State, p: Pid)
    requires SerialsOk(s) && GaveAway(s, s', p) && s'.next == s.next && s'.returned == s.returned
    requires s'.exited == s.exited[s.procs[p].serial := s'.procs[p].exitStatus]
    ensures SerialsOk(s')
  {
  }

  lemma ExitBeginWaiters(s: State, s': State, p: Pid)
    requires WaitersOk(s) && GaveAway(s, s', p)
    ensures WaitersOk(s')
  {
    assert forall c, q :: q != p && q != INIT ==> IsChild(s', c, q) == IsChild(s, c, q);
    assert forall c, q :: q != p && q != INIT ==> HangingChild(s', c, q) == HangingChild(s, c, q);
    assert forall c :: HangingChild(s, c, INIT) ==> HangingChild(s', c, INIT);
  }

  lemma ExitEndOk(s: State, p: Pid)
    requires Inv(s) && p in s.procs && s.procs[p].status == Runnable && s.procs[p].phase == Exiting
    ensures s.procs[p].parent in s.procs && s.procs[p].parent != p && Inv(ExitEnd(s, p))
  {
    hide FamilyOk, SerialsOk, WaitersOk, PidsOk, SameButStatus, Taken;
    ParentLives(s, p);
    var s' := ExitEnd(s, p);
    OnlyStatuses(s, p);
    SamePids(s, s');
    HangFamily(s, s', p);
    HangWaiters(s, s', p);
    HangSerials(s, s');
  }

  lemma ParentLives(s: State, p: Pid)
    requires FamilyOk(s) && p in s.procs && s.procs[p].phase == Exiting
    ensures s.procs[p].parent in s.procs && s.procs[p].parent != p && p != INIT
  {
    assert !IsChild(s, p, p);
  }

  ghost predicate SameButStatus(s: State, s': State) {
    && s' == s.(procs := s'.procs) && s'.procs.Keys == s.procs.Keys
    && forall q :: q in s.procs ==> s'.procs[q] == s.procs[q].(status := s'.procs[q].status)
  }

  lemma OnlyStatuses(s: State, p: Pid)
    requires p in s.procs && s.procs[p].parent in s.procs && s.procs[p].parent != p
    ensures var s' := ExitEnd(s, p);
            && SameButStatus(s, s') && s'.all == s.all && s'.bits == s.bits && s'.procs.Keys == s.procs.Keys
            && forall q :: q in s.procs ==> s'.procs[q].phase == s.procs[q].phase
  {
  }

  lemma HangFamily(s: State, s': State, p: Pid)
    requires FamilyOk(s) && p in s.procs && s.procs[p].phase == Exiting && SameButStatus(s, s')
    requires forall q :: q in s.procs && q != p && s.procs[q].status != Hanging ==> s'.procs[q].status != Hanging
    ensures FamilyOk(s')
  {
    assert forall c, d :: IsChild(s', c, d) == IsChild(s, c, d);
  }

  lemma HangSerials(s: State, s': State)
    requires SerialsOk(s) && SameButStatus(s, s')
    ensures SerialsOk(s')
  {
  }

  lemma HangWaiters(s: State, s': State, p: Pid)
    requires WaitersOk(s) && p in s.procs && s.procs[p].status == Runnable && s.procs[p].phase == Exiting
    requires s.procs[p].parent in s.procs && s.procs[p].parent != p && s' == ExitEnd(s, p)
    ensures WaitersOk(s')
  {
    var q := s.procs[p].parent;
    assert forall c, d :: IsChild(s', c, d) == IsChild(s, c, d);
    assert forall c, d :: d != q ==> HangingChild(s', c, d) == HangingChild(s, c, d);
    assert HangingChild(s', p, q);
  }

  // --- sys_wait ---

  /** What the answer means: the first child on the list that hangs, with the status it gave; no child; or children, of
      which none hangs. */
  lemma AnswerIs(s: State, p: Pid)
    requires forall q :: q in s.all <==> q in s.procs
    ensures match WaitAnswer(s, p)
            case Child(c, st) => HangingChild(s, c, p) && st == s.procs[c].exitStatus
            case NoChild => forall c :: !IsChild(s, c, p)
            case Asleep => (exists c :: IsChild(s, c, p)) && forall c :: !HangingChild(s, c, p)
  {
    FirstChildIs(s, p, true);
    FirstChildIs(s, p, false);
    forall c | c !in s.all
      ensures !IsChild(s, c, p)
    {
    }
  }

  lemma PlaceOf(all: seq<Pid>, c: Pid)
    requires Distinct(all) && c in all
    ensures var i := Place(all, c);
            && 0 <= i < |all| && all[i] == c
            && Distinct(all[..i] + all[i + 1..]) && forall q :: q in all[..i] + all[i + 1..] <==> q in all && q != c
  {
    FirstIs(all, (q: Pid) => q == c);
    WithoutOne(all, Place(all, c));
  }

  lemma WithoutOne(all: seq<Pid>, i: nat)
    requires Distinct(all) && i < |all|
    ensures var rest := all[..i] + all[i + 1..];
            Distinct(rest) && forall q :: q in rest <==> q in all && q != all[i]
  {
    var rest := all[..i] + all[i + 1..];
    assert all == all[..i] + [all[i]] + all[i + 1..];
    forall j, k | 0 <= j < k < |rest|
      ensures rest[j] != rest[k]
    {
      assert rest[j] == all[if j < i then j else j + 1] && rest[k] == all[if k < i then k else k + 1];
    }
  }

  lemma ReapedPids(s: State, c: Pid)
    requires PidsOk(s) && c in s.procs && !s.procs[c].phase.Forking?
    ensures Place(s.all, c) != -1 && 1 <= c <= |s.bits| && PidsOk(Reaped(s, c))
  {
    hide Place, Distinct, Taken;
    PlaceOf(s.all, c);
    ReapedBits(s, c);
  }

  lemma ReapedBits(s: State, c: Pid)
    requires PidsOk(s) && c in s.procs && !s.procs[c].phase.Forking?
    requires Place(s.all, c) != -1 && 1 <= c <= |s.bits|
    ensures forall i :: 0 <= i < MAX_PIDS ==> (Reaped(s, c).bits[i] <==> Taken(Reaped(s, c), i + 1))
  {
    hide Place, Distinct;
    var s' := Reaped(s, c);
    forall i | 0 <= i < MAX_PIDS
      ensures s'.bits[i] <==> Taken(s', i + 1)
    {
      if s.bits[i] && i + 1 !in s.procs {
        var q :| q in s.procs && s.procs[q].phase == Forking(i + 1);
        assert q in s'.procs && s'.procs[q].phase == Forking(i + 1);
      }
    }
  }

  lemma ReapedFamily(s: State, c: Pid)
    requires FamilyOk(s) && c in s.procs && s.procs[c].status == Hanging
    requires Place(s.all, c) != -1 && 1 <= c <= |s.bits|
    ensures FamilyOk(Reaped(s, c))
  {
    var s' := Reaped(s, c);
    forall q | q in s'.procs && s'.procs[q].parent != 0
      ensures s'.procs[q].parent in s'.procs
    {
      assert !IsChild(s, q, c);
    }
    forall q, d | q in s'.procs && (s'.procs[q].status == Hanging || s'.procs[q].phase == Exiting)
      ensures !IsChild(s', d, q)
    {
      assert !IsChild(s, d, q);
    }
  }

  lemma ReapedSerials(s: State, c: Pid)
    requires SerialsOk(s) && c in s.procs && s.procs[c].phase == Exiting
    requires Place(s.all, c) != -1 && 1 <= c <= |s.bits|
    ensures SerialsOk(Reaped(s, c))
  {
  }

  /** Process p's place changes from inside sys_wait to elsewhere; or it goes to sleep there. */
  lemma MovedFamily(s: State, p: Pid, r: Proc)
    requires FamilyOk(s) && p in s.procs && r.parent == s.procs[p].parent && r.status != Hanging && r.phase != Exiting
    ensures FamilyOk(With(s, p, r))
  {
    assert forall c, d :: IsChild(With(s, p, r), c, d) == IsChild(s, c, d);
  }

  lemma MovedSerials(s: State, p: Pid, r: Proc)
    requires SerialsOk(s) && p in s.procs && s.procs[p].phase != Exiting
    requires r == s.procs[p].(phase := r.phase, status := r.status) && r.phase != Exiting
    ensures SerialsOk(With(s, p, r))
  {
  }

  lemma ReapedWaiters(s: State, p: Pid, c: Pid)
    requires WaitersOk(s) && p in s.procs && s.procs[p].status == Runnable && HangingChild(s, c, p) && c != p
    requires Place(s.all, c) != -1 && 1 <= c <= |s.bits|
    ensures WaitersOk(With(Reaped(s, c), p, s.procs[p].(phase := Elsewhere)))
  {
    var s' := With(Reaped(s, c), p, s.procs[p].(phase := Elsewhere));
    assert forall q, d :: q != p ==> IsChild(s', d, q) == IsChild(s, d, q);
    assert forall q, d :: q != p ==> HangingChild(s', d, q) == HangingChild(s, d, q);
  }

  lemma MovedWaiters(s: State, p: Pid, r: Proc)
    requires WaitersOk(s) && p in s.procs && s.procs[p].status == Runnable && r.parent == s.procs[p].parent
    requires (r.status == Runnable && r.phase == Elsewhere)
             || (r.status == Waiting && r.phase == InWait && (exists c :: IsChild(s, c, p)) && forall c :: !HangingChild(s, c, p))
    ensures WaitersOk(With(s, p, r))
  {
    var s' := With(s, p, r);
    assert forall q, d :: IsChild(s', d, q) == IsChild(s, d, q);
    assert forall q, d :: HangingChild(s', d, q) == HangingChild(s, d, q);
  }

  lemma WaitPassOk(s: State, p: Pid)
    requires Inv(s) && p in s.procs && s.procs[p].status == Runnable && (s.procs[p].phase == Elsewhere || s.procs[p].phase == InWait)
    ensures var a := WaitAnswer(s, p);
            a.Child? ==> a.pid in s.procs && a.pid != p && 1 <= a.pid <= |s.bits| && Place(s.all, a.pid) != -1
    ensures Inv(WaitPass(s, p))
  {
    hide FamilyOk, SerialsOk, WaitersOk, PidsOk;
    ListHas(s);
    AnswerIs(s, p);
    match WaitAnswer(s, p) {
      case Child(c, st) => ReapOk(s, p, c);
      case NoChild => MoveOk(s, p, s.procs[p].(phase := Elsewhere));
      case Asleep => MoveOk(s, p, s.procs[p].(status := Waiting, phase := InWait));
    }
  }

  lemma ListHas(s: State)
    requires PidsOk(s)
    ensures forall q :: q in s.all <==> q in s.procs
  {
  }

  lemma MoveOk(s: State, p: Pid, r: Proc)
    requires Inv(s) && p in s.procs && s.procs[p].status == Runnable && (s.procs[p].phase == Elsewhere || s.procs[p].phase == InWait)
    requires r == s.procs[p].(phase := r.phase, status := r.status)
    requires (r.status == Runnable && r.phase == Elsewhere)
             || (r.status == Waiting && r.phase == InWait && (exists c :: IsChild(s, c, p)) && forall c :: !HangingChild(s, c, p))
    ensures Inv(With(s, p, r))
  {
    hide FamilyOk, SerialsOk, WaitersOk, PidsOk;
    SamePids(s, With(s, p, r));
    MovedFamily(s, p, r);
    MovedSerials(s, p, r);
    MovedWaiters(s, p, r);
  }

  lemma ReapOk(s: State, p: Pid, c: Pid)
    requires Inv(s) && p in s.procs && s.procs[p].status == Runnable && (s.procs[p].phase == Elsewhere || s.procs[p].phase == InWait)
    requires HangingChild(s, c, p)
    ensures c != p && Place(s.all, c) != -1 && 1 <= c <= |s.bits|
    ensures Inv(With(Reaped(s, c), p, s.procs[p].(phase := Elsewhere)))
  {
    hide FamilyOk, SerialsOk, WaitersOk, PidsOk;
    HangingExits(s, c);
    ReapedPids(s, c);
    ReapedFamily(s, c);
    ReapedSerials(s, c);
    ReapedWaiters(s, p, c);
    var t := Reaped(s, c);
    assert t.procs[p] == s.procs[p];
    SamePids(t, With(t, p, s.procs[p].(phase := Elsewhere)));
    MovedFamily(t, p, s.procs[p].(phase := Elsewhere));
    MovedSerials(t, p, s.procs[p].(phase := Elsewhere));
  }

  lemma HangingExits(s: State, c: Pid)
    requires FamilyOk(s) && c in s.procs && s.procs[c].status == Hanging
    ensures s.procs[c].phase == Exiting
  {
  }

  // --- Runs ---

  datatype Event = StartThread | BeginFork(p: Pid) | EndFork(p: Pid) | BeginExit(p: Pid, st: int) | EndExit(p: Pid) | Wait(p: Pid)

  /** Not all pids are in use when one is allocated; and only a process with a parent exits, as ExitIsSafeIff says why. */
  predicate Enabled(s: State, e: Event) {
    match e
    case StartThread => LowestClear(s.bits, 0) < |s.bits|
    case BeginFork(p) => p in s.procs && s.procs[p].status == Runnable && s.procs[p].phase == Elsewhere
                         && LowestClear(s.bits, 0) < |s.bits|
    case EndFork(p) => p in s.procs && s.procs[p].status == Runnable && s.procs[p].phase.Forking?
    case BeginExit(p, st) => p in s.procs && s.procs[p].status == Runnable && s.procs[p].phase == Elsewhere && s.procs[p].parent != 0
    case EndExit(p) => p in s.procs && s.procs[p].status == Runnable && s.procs[p].phase == Exiting
    case Wait(p) => p in s.procs && s.procs[p].status == Runnable && (s.procs[p].phase == Elsewhere || s.procs[p].phase == InWait)
  }

  /** The end of sys_exit finds the parent, whose status it reads, if and only if there is one. A process that process_execute has
      started has none, and neither has init. */
  lemma ExitIsSafeIff(s: State, p: Pid, st: int)
    requires Inv(s) && p in s.procs
    ensures var t := ExitBegin(s, p, st); t.procs[p].parent in t.procs <==> s.procs[p].parent != 0
  {
    hide WaitersOk, SerialsOk;
  }

  /** So it does not for a process that process_execute has started right after init. */
  lemma ExitWithoutParent(s: State, st: int)
    requires Inv(s) && LowestClear(s.bits, 0) < |s.bits|
    ensures var p := LowestClear(s.bits, 0) + 1;
            var t := ThreadStart(s);
            p in t.procs && ExitBegin(t, p, st).procs[p].parent !in ExitBegin(t, p, st).procs
  {
    hide Inv, ExitBegin;
    ThreadStartOk(s);
    ExitIsSafeIff(ThreadStart(s), LowestClear(s.bits, 0) + 1, st);
  }

  /** What the code takes for granted: pid2thread finds the parent, and a child that is taken away is on the list. */
  predicate Safe(s: State, e: Event)
    requires Enabled(s, e)
  {
    match e
    case EndExit(p) => s.procs[p].parent in s.procs
    case Wait(p) =>
      var a := WaitAnswer(s, p);
      a.Child? ==> a.pid in s.procs && a.pid != p && 1 <= a.pid <= |s.bits| && Place(s.all, a.pid) != -1
    case _ => true
  }

  function Next(s: State, e: Event): State
    requires Enabled(s, e) && Safe(s, e)
  {
    match e
    case StartThread => ThreadStart(s)
    case BeginFork(p) => ForkBegin(s, p)
    case EndFork(p) => ForkEnd(s, p)
    case BeginExit(p, st) => ExitBegin(s, p, st)
    case EndExit(p) => ExitEnd(s, p)
    case Wait(p) => WaitPass(s, p)
  }

  lemma StepKeepsInv(s: State, e: Event)
    requires Inv(s) && Enabled(s, e)
    ensures Safe(s, e) && Inv(Next(s, e))
  {
    hide Inv;
    match e {
      case StartThread => ThreadStartOk(s);
      case BeginFork(p) => ForkBeginOk(s, p);
      case EndFork(p) => ForkEndOk(s, p);
      case BeginExit(p, st) => ExitBeginOk(s, p, st);
      case EndExit(p) => ExitEndOk(s, p);
      case Wait(p) => WaitPassOk(s, p);
    }
  }

  ghost predicate IsRun(run: seq<State>, events: seq<Event>) {
    && |run| == |events| + 1
    && forall i :: 0 <= i < |events| ==>
         Enabled(run[i], events[i]) && (Safe(run[i], events[i]) ==> run[i + 1] == Next(run[i], events[i]))
  }

  /** In every run from a sound state every step is safe and every state is sound. */
  lemma {:induction false} RunsAreSound(run: seq<State>, events: seq<Event>)
    requires IsRun(run, events) && Inv(run[0])
    ensures forall i :: 0 <= i < |events| ==> Safe(run[i], events[i])
    ensures forall i :: 0 <= i < |run| ==> Inv(run[i])
  {
    hide Inv, Safe, Next, Enabled;
    for i := 0 to |events|
      invariant forall k :: 0 <= k < i ==> Safe(run[k], events[k])
      invariant forall k :: 0 <= k <= i ==> Inv(run[k])
    {
      StepKeepsInv(run[i], events[i]);
    }
  }

  /** The first process alone: init, before it forks. */
  lemma InvInitially(s: State)
    requires s.all == [INIT] && s.procs == map[INIT := Proc(0, 0, Runnable, 0, Elsewhere)] && s.next == 1
    requires |s.bits| == MAX_PIDS && (forall i :: 0 <= i < MAX_PIDS ==> (s.bits[i] <==> i == 0))
    requires s.exited == map[] && s.returned == map[]
    ensures Inv(s)
  {
    assert forall c, p :: p != 0 ==> !IsChild(s, c, p);
  }

  /** In every state of every run the parent of a forked process is on the list. */
  lemma ParentsLive(run: seq<State>, events: seq<Event>, i: nat, c: Pid)
    requires IsRun(run, events) && Inv(run[0]) && i < |run| && c in run[i].procs && run[i].procs[c].parent != 0
    ensures run[i].procs[c].parent in run[i].all
  {
    hide IsRun;
    RunsAreSound(run, events);
  }

  /** A process that sleeps in sys_wait has a child, and unless it is init none of its children hangs. */
  lemma WaitingMeansNoneHangs(run: seq<State>, events: seq<Event>, i: nat, p: Pid)
    requires IsRun(run, events) && Inv(run[0]) && i < |run|
    requires p in run[i].procs && run[i].procs[p].status == Waiting && p != INIT
    ensures (exists c :: IsChild(run[i], c, p)) && forall c :: !HangingChild(run[i], c, p)
  {
    hide IsRun;
    RunsAreSound(run, events);
  }

  /** Once woken, sys_wait finds a child to return: it sleeps at most once a call, for init as well. */
  lemma WokenWaitReturns(run: seq<State>, events: seq<Event>, i: nat, p: Pid)
    requires IsRun(run, events) && Inv(run[0]) && i < |run|
    requires p in run[i].procs && run[i].procs[p].status == Runnable && run[i].procs[p].phase == InWait
    ensures WaitAnswer(run[i], p).Child?
  {
    hide IsRun;
    RunsAreSound(run, events);
    AnswerIs(run[i], p);
  }

  /** What a step does to what has been returned and given: nothing is forgotten. */
  lemma NothingForgotten(s: State, e: Event, k: nat)
    requires Inv(s) && Enabled(s, e) && Safe(s, e)
    ensures k in s.returned ==> k in Next(s, e).returned && Next(s, e).returned[k] == s.returned[k]
    ensures k in s.exited ==> k in Next(s, e).exited && Next(s, e).exited[k] == s.exited[k]
    ensures k !in s.exited && k in Next(s, e).exited ==>
              e.BeginExit? && s.procs[e.p].serial == k && Next(s, e).exited[k] == e.st
  {
    hide PidsOk, FamilyOk, WaitersOk;
    match e {
      case BeginExit(p, st) => assert s.procs[p].serial !in s.exited;
      case Wait(p) =>
        if WaitAnswer(s, p).Child? {
          assert s.procs[WaitAnswer(s, p).pid].serial !in s.returned;
        }
      case _ =>
    }
  }

  /** sys_wait returns a status only to the process that is the child's parent at that time, and it is the one that the
      child, and no process that had its pid before, passed to sys_exit earlier in the run. */
  lemma StatusIsTheChilds(run: seq<State>, events: seq<Event>, i: nat, p: Pid) returns (j: nat)
    requires IsRun(run, events) && Inv(run[0]) && run[0].exited == map[] && i < |events| && events[i] == Wait(p)
    requires WaitAnswer(run[i], p).Child?
    ensures var a := WaitAnswer(run[i], p);
            && a.pid in run[i].procs && run[i].procs[a.pid].parent == p
            && j < i && events[j].BeginExit? && events[j].st == a.status && events[j].p in run[j].procs
            && run[j].procs[events[j].p].serial == run[i].procs[a.pid].serial
  {
    RunsAreSound(run, events);
    var a := WaitAnswer(run[i], p);
    ReturnsChild(run[i], p);
    var k := run[i].procs[a.pid].serial;
    hide Inv, Enabled, Safe, Next, WaitAnswer;
    j := i;
    while k in run[j].exited
      invariant 0 <= j <= i && (k in run[j].exited ==> run[j].exited[k] == a.status) && (j == i ==> k in run[j].exited)
      invariant k !in run[j].exited ==>
                  && j < i && events[j].BeginExit? && events[j].st == a.status
                  && events[j].p in run[j].procs && run[j].procs[events[j].p].serial == k
      decreases j
    {
      j := j - 1;
      NothingForgotten(run[j], events[j], k);
      ExitsHaveProcess(run[j], events[j]);
    }
  }

  lemma ExitsHaveProcess(s: State, e: Event)
    requires Enabled(s, e)
    ensures e.BeginExit? ==> e.p in s.procs
  {
  }

  lemma ReturnsChild(s: State, p: Pid)
    requires Inv(s) && WaitAnswer(s, p).Child?
    ensures var a := WaitAnswer(s, p);
            && a.pid in s.procs && s.procs[a.pid].parent == p && s.procs[a.pid].serial !in s.returned
            && s.procs[a.pid].serial in s.exited && s.exited[s.procs[a.pid].serial] == a.status
  {
    AnswerIs(s, p);
  }

  /** No process's status is returned twice. */
  lemma StatusReturnedOnce(run: seq<State>, events: seq<Event>, i: nat, j: nat, p: Pid, q: Pid)
    requires IsRun(run, events) && Inv(run[0]) && i < j < |events| && events[i] == Wait(p) && events[j] == Wait(q)
    requires WaitAnswer(run[i], p).Child? && WaitAnswer(run[j], q).Child?
    ensures var c, d := WaitAnswer(run[i], p).pid, WaitAnswer(run[j], q).pid;
            c in run[i].procs && d in run[j].procs && run[i].procs[c].serial != run[j].procs[d].serial
  {
    RunsAreSound(run, events);
    ReturnsChild(run[i], p);
    ReturnsChild(run[j], q);
    var k := run[i].procs[WaitAnswer(run[i], p).pid].serial;
    assert k in run[i + 1].returned;
    hide Inv, Enabled, Safe, Next, WaitAnswer;
    for m := i + 1 to j
      invariant k in run[m].returned
    {
      NothingForgotten(run[m], events[m], k);
    }
  }

  /** A pid stays with its process until sys_wait takes the process away, and a pid that is allocated belongs to nobody. */
  lemma PidsAreNotReused(s: State, e: Event, p: Pid)
    requires Inv(s) && Enabled(s, e) && Safe(s, e) && p in s.procs
    ensures (p in Next(s, e).procs && Next(s, e).procs[p].serial == s.procs[p].serial)
            || (e == Wait(s.procs[p].parent) && WaitAnswer(s, e.p) == Child(p, s.procs[p].exitStatus) && p !in Next(s, e).procs)
    ensures e.StartThread? || e.BeginFork? ==> !Taken(s, LowestClear(s.bits, 0) + 1)
  {
    hide FamilyOk, WaitersOk, SerialsOk;
    match e {
      case StartThread => FreePid(s);
      case BeginFork(q) => FreePid(s);
      case EndFork(q) => assert s.procs[q].phase.child !in s.procs;
      case Wait(q) => AnswerIs(s, q);
      case _ =>
    }
  }

  /** sys_exit wakes nobody for the children it gives to init: when init sleeps it goes on sleeping, and the hanging ones
      among them stay until some other child wakes it. */
  lemma AdoptedZombies(s: State, p: Pid, st: int)
    requires Inv(s) && Enabled(s, BeginExit(p, st)) && s.procs[INIT].status == Waiting
    ensures Next(s, BeginExit(p, st)).procs[INIT].status == Waiting
    ensures (exists c :: HangingChild(Next(s, BeginExit(p, st)), c, INIT))
            <==> exists c :: HangingChild(s, c, INIT) || HangingChild(s, c, p)
  {
    hide PidsOk, WaitersOk, SerialsOk, Adopted;
    PidRange(s);
    var s' := ExitBegin(s, p, st);
    AdoptedIs(s, p, st);
    assert forall c :: HangingChild(s', c, INIT) <==> HangingChild(s, c, INIT) || HangingChild(s, c, p);
  }

  // --- Who sleeps, who is woken, and whose child a process is, told without the steps' functions ---

  /** A step changes the status of a process in three ways only: the process goes to sleep in sys_wait because it has children
      of which none hangs; it is woken because a child of its ends; and it hangs because it ends itself. Init is no exception. */
  lemma StatusChanges(s: State, e: Event, q: Pid)
    requires Inv(s) && Enabled(s, e) && Safe(s, e) && q in s.procs && q in Next(s, e).procs
    ensures var before, after := s.procs[q].status, Next(s, e).procs[q].status;
            && (before != Waiting && after == Waiting <==>
                e == Wait(q) && (exists c :: IsChild(s, c, q)) && forall c :: !HangingChild(s, c, q))
            && (before == Waiting && after != Waiting <==> before == Waiting && e.EndExit? && s.procs[e.p].parent == q)
            && (before == Waiting && after != Waiting ==> after == Runnable)
            && (before != Hanging && after == Hanging <==> e == EndExit(q))
            && (before == Hanging ==> after == Hanging)
  {
    hide WaitersOk, SerialsOk;
    match e {
      case EndExit(p) => ParentLives(s, p);
      case Wait(p) => AnswerIs(s, p);
      case EndFork(p) => assert s.procs[p].phase.child !in s.procs;
      case StartThread => FreePid(s);
      case _ =>
    }
  }

  lemma EndedStep(s: State, p: Pid)
    requires Inv(s) && Enabled(s, EndExit(p)) && Safe(s, EndExit(p))
    ensures var q, s' := s.procs[p].parent, Next(s, EndExit(p));
            && p in s'.procs && q in s'.all && q in s'.procs && s'.procs[q].status == Runnable && HangingChild(s', p, q)
  {
    hide WaitersOk, SerialsOk;
    ParentLives(s, p);
    assert IsChild(s, p, s.procs[p].parent);
  }

  /** In every run, when a process has ended, the process that was its parent is on the list and does not sleep, and the next
      pass of its sys_wait returns a child. This holds for init too. */
  lemma ExitWakesParent(run: seq<State>, events: seq<Event>, i: nat, p: Pid)
    requires IsRun(run, events) && Inv(run[0]) && i < |events| && events[i] == EndExit(p)
    ensures p in run[i].procs && p in run[i + 1].procs && run[i + 1].procs[p].status == Hanging
    ensures var q := run[i].procs[p].parent;
            && q in run[i + 1].all && q in run[i + 1].procs && run[i + 1].procs[q].status == Runnable
            && WaitAnswer(run[i + 1], q).Child?
  {
    RunsAreSound(run, events);
    EndedStep(run[i], p);
    hide Inv, WaitAnswer, Next;
    PidsHas(run[i + 1]);
    AnswerIs(run[i + 1], run[i].procs[p].parent);
  }

  lemma ForkedStep(s: State, p: Pid)
    requires Inv(s) && Enabled(s, EndFork(p))
    ensures var c, s' := s.procs[p].phase.child, Next(s, EndFork(p));
            && c !in s.procs && c in s'.all && IsChild(s', c, p) && s'.procs[c].status == Runnable && s'.procs[c].phase == Elsewhere
            && s'.procs[c].serial == s.next && (forall q :: q in s.procs ==> s.procs[q].serial != s.next)
            && s'.next > s.next && p in s'.procs && s'.procs[p] == s.procs[p].(phase := Elsewhere) && s'.exited == s.exited
  {
    hide FamilyOk, WaitersOk;
  }

  /** When sys_fork returns, its result is the pid of a process that is on the list, can run, has a serial number of its own
      and is a child of the process that called it; so that one's sys_wait does not answer that there is no child. */
  lemma ForkMakesChild(run: seq<State>, events: seq<Event>, i: nat, p: Pid)
    requires IsRun(run, events) && Inv(run[0]) && i < |events| && events[i] == EndFork(p)
    ensures p in run[i].procs && run[i].procs[p].phase.Forking?
    ensures var c, s, s' := run[i].procs[p].phase.child, run[i], run[i + 1];
            && c !in s.procs && c in s'.all && IsChild(s', c, p) && s'.procs[c].status == Runnable && s'.procs[c].phase == Elsewhere
            && s'.procs[c].serial == s.next && (forall q :: q in s.procs ==> s.procs[q].serial != s.next)
            && p in s'.procs && s'.procs[p] == s.procs[p].(phase := Elsewhere)
            && WaitAnswer(s', p) != NoChild
  {
    RunsAreSound(run, events);
    ForkedStep(run[i], p);
    hide Inv, WaitAnswer, Next;
    PidsHas(run[i + 1]);
    AnswerIs(run[i + 1], p);
  }

  /** What a step does to parents: the children of a process that calls sys_exit become init's, and nobody else's parent
      changes. Only that process's serial number joins those that have exited, and one that has not exited stays. */
  ghost predicate ParentsChange(s: State, e: Event, s': State) {
    && s.next <= s'.next
    && (forall c :: c in s.procs && c in s'.procs && s'.procs[c].serial == s.procs[c].serial ==>
          s'.procs[c].parent == if e.BeginExit? && s.procs[c].parent == e.p then INIT else s.procs[c].parent)
    && (forall c :: c in s'.procs && (c in s.procs ==> s'.procs[c].serial != s.procs[c].serial) ==> s'.procs[c].serial >= s.next)
    && s'.exited.Keys == s.exited.Keys + (if e.BeginExit? && e.p in s.procs then {s.procs[e.p].serial} else {})
    && (forall p :: p in s.procs && s.procs[p].serial !in s'.exited ==> p in s'.procs && s'.procs[p].serial == s.procs[p].serial)
  }

  lemma StepsChangeParents(s: State, e: Event)
    requires Inv(s) && Enabled(s, e) && Safe(s, e)
    ensures ParentsChange(s, e, Next(s, e))
  {
    hide PidsOk, FamilyOk, WaitersOk, SerialsOk, ParentsChange, ExitBegin, ExitEnd, WaitPass, ForkEnd, WaitAnswer;
    match e {
      case StartThread => StartChanges(s);
      case BeginFork(p) => BeginChanges(s, p);
      case EndFork(p) => ForkChanges(s, p);
      case BeginExit(p, st) => GiveChanges(s, p, st);
      case EndExit(p) => HangChanges(s, p);
      case Wait(p) => WaitChanges(s, p);
    }
  }

  lemma BeginChanges(s: State, p: Pid)
    requires Inv(s) && Enabled(s, BeginFork(p))
    ensures ParentsChange(s, BeginFork(p), Next(s, BeginFork(p)))
  {
    hide PidsOk, FamilyOk, WaitersOk;
  }

  lemma GiveChanges(s: State, p: Pid, st: int)
    requires Inv(s) && Enabled(s, BeginExit(p, st))
    ensures ParentsChange(s, BeginExit(p, st), Next(s, BeginExit(p, st)))
  {
    hide PidsOk, FamilyOk, WaitersOk;
  }

  lemma HangChanges(s: State, p: Pid)
    requires Inv(s) && Enabled(s, EndExit(p)) && Safe(s, EndExit(p))
    ensures ParentsChange(s, EndExit(p), Next(s, EndExit(p)))
  {
    hide PidsOk, WaitersOk, SerialsOk;
    ParentLives(s, p);
  }

  lemma StartChanges(s: State)
    requires Inv(s) && Enabled(s, StartThread)
    ensures ParentsChange(s, StartThread, Next(s, StartThread))
  {
    hide FamilyOk, WaitersOk;
    FreePid(s);
  }

  lemma ForkChanges(s: State, p: Pid)
    requires Inv(s) && Enabled(s, EndFork(p))
    ensures ParentsChange(s, EndFork(p), Next(s, EndFork(p)))
  {
    hide FamilyOk, WaitersOk;
    assert s.procs[p].phase.child !in s.procs;
  }

  lemma WaitChanges(s: State, p: Pid)
    requires Inv(s) && Enabled(s, Wait(p)) && Safe(s, Wait(p))
    ensures ParentsChange(s, Wait(p), Next(s, Wait(p)))
  {
    hide PidsOk, FamilyOk, WaitersOk, SerialsOk, WaitAnswer, Place;
    PidsHas(s);
    AnswerIs(s, p);
    if WaitAnswer(s, p).Child? {
      HangingExits(s, WaitAnswer(s, p).pid);
      ExitingHasExited(s, WaitAnswer(s, p).pid);
    }
  }

  lemma ExitingHasExited(s: State, c: Pid)
    requires SerialsOk(s) && c in s.procs && s.procs[c].phase == Exiting
    ensures s.procs[c].serial in s.exited
  {
  }

  /** The process with serial number k, if it is on the list as c, is a child of the process with serial number f, which is p,
      as long as that one has not called sys_exit, and of init from then on. */
  ghost predicate Fathered(s: State, c: Pid, k: nat, p: Pid, f: nat) {
    && k < s.next
    && (f !in s.exited ==> p in s.procs && s.procs[p].serial == f)
    && (c in s.procs && s.procs[c].serial == k ==> s.procs[c].parent == if f in s.exited then INIT else p)
  }

  lemma StillFathered(s: State, e: Event, s': State, c: Pid, k: nat, p: Pid, f: nat)
    requires Inv(s) && Inv(s') && ParentsChange(s, e, s') && Fathered(s, c, k, p, f)
    requires e.BeginExit? ==> e.p in s.procs && s.procs[e.p].parent != 0
    ensures Fathered(s', c, k, p, f)
  {
    hide WaitersOk, PidsOk;
  }

  lemma ExitsHaveParent(s: State, e: Event)
    requires Enabled(s, e)
    ensures e.BeginExit? ==> e.p in s.procs && s.procs[e.p].parent != 0
  {
  }

  /** In every run a process made by a fork is, as long as it is on the list, a child of the process that called sys_fork until
      that one calls sys_exit, and of init afterwards. */
  lemma ParentOfForked(run: seq<State>, events: seq<Event>, j: nat, i: nat, p: Pid, c: Pid)
    requires IsRun(run, events) && Inv(run[0]) && j < i < |run| && events[j] == EndFork(p)
    requires c in run[i].procs && run[i].procs[c].serial == run[j].next
    requires p in run[j].procs && run[j].procs[p].phase == Forking(c)
    ensures var f := run[j].procs[p].serial;
            run[i].procs[c].parent == if f in run[i].exited then INIT else p
    ensures run[j].procs[p].serial !in run[i].exited ==> p in run[i].procs && run[i].procs[p].serial == run[j].procs[p].serial
  {
    RunsAreSound(run, events);
    ForkMakesChild(run, events, j, p);
    var k, f := run[j].next, run[j].procs[p].serial;
    assert Fathered(run[j + 1], c, k, p, f);
    hide Inv, Enabled, Safe, Next, Fathered, ParentsChange;
    for m := j + 1 to i
      invariant Fathered(run[m], c, k, p, f)
    {
      StepsChangeParents(run[m], events[m]);
      ExitsHaveParent(run[m], events[m]);
      StillFathered(run[m], events[m], run[m + 1], c, k, p, f);
    }
  }

  /** The list of all threads is in the order in which the processes came to be. */
  ghost predicate Aged(s: State) {
    forall i, j :: 0 <= i < j < |s.all| && s.all[i] in s.procs && s.all[j] in s.procs ==>
      s.procs[s.all[i]].serial < s.procs[s.all[j]].serial
  }

  /** No process gets another serial number, and none has one that is still to be given. */
  ghost predicate SerialsStay(s: State, s': State) {
    && (forall q :: q in s.procs ==> s.procs[q].serial < s.next)
    && (forall q :: q in s.procs && q in s'.procs ==> s'.procs[q].serial == s.procs[q].serial)
  }

  lemma SerialsBelow(s: State)
    requires Inv(s)
    ensures forall q :: q in s.procs ==> s.procs[q].serial < s.next
  {
  }

  lemma AgedBehind(s: State, s': State, c: Pid)
    requires Aged(s) && SerialsStay(s, s') && s'.all == s.all + [c] && (forall q :: q in s.all ==> q in s.procs)
    requires c in s'.procs && s'.procs[c].serial == s.next
    ensures Aged(s')
  {
    forall j, k | 0 <= j < k < |s'.all| && s'.all[j] in s'.procs && s'.all[k] in s'.procs
      ensures s'.procs[s'.all[j]].serial < s'.procs[s'.all[k]].serial
    {
      assert s'.all[j] == s.all[j] && s.all[j] in s.procs;
    }
  }

  lemma AgedWithout(s: State, s': State, i: nat)
    requires Aged(s) && SerialsStay(s, s') && i < |s.all| && s'.all == s.all[..i] + s.all[i + 1..]
    requires forall q :: q in s'.procs ==> q in s.procs
    ensures Aged(s')
  {
    forall j, k | 0 <= j < k < |s'.all| && s'.all[j] in s'.procs && s'.all[k] in s'.procs
      ensures s'.procs[s'.all[j]].serial < s'.procs[s'.all[k]].serial
    {
      assert s'.all[j] == s.all[if j < i then j else j + 1] && s'.all[k] == s.all[if k < i then k else k + 1];
    }
  }

  lemma AgedSame(s: State, s': State)
    requires Aged(s) && SerialsStay(s, s') && s'.all == s.all && s'.procs.Keys == s.procs.Keys
    ensures Aged(s')
  {
  }

  lemma AgedAfterStart(s: State)
    requires Inv(s) && Enabled(s, StartThread) && Aged(s)
    ensures Aged(Next(s, StartThread))
  {
    hide Inv, Aged;
    PidsHas(s);
    SerialsBelow(s);
    StartIsNew(s);
    AgedBehind(s, Next(s, StartThread), LowestClear(s.bits, 0) + 1);
  }

  lemma StartIsNew(s: State)
    requires Inv(s) && Enabled(s, StartThread)
    ensures LowestClear(s.bits, 0) + 1 !in s.procs
  {
    hide FamilyOk, WaitersOk, SerialsOk;
    FreePid(s);
  }

  lemma ForkIsNew(s: State, p: Pid)
    requires Inv(s) && Enabled(s, EndFork(p))
    ensures s.procs[p].phase.child !in s.procs
  {
    hide FamilyOk, WaitersOk, SerialsOk;
  }

  lemma AgedAfterWait(s: State, p: Pid)
    requires Inv(s) && Enabled(s, Wait(p)) && Safe(s, Wait(p)) && Aged(s)
    ensures Aged(Next(s, Wait(p)))
  {
    hide Inv, Aged, WaitAnswer, Place;
    SerialsBelow(s);
    var s' := Next(s, Wait(p));
    match WaitAnswer(s, p) {
      case Child(c, _) =>
        assert SerialsStay(s, s');
        AgedWithout(s, s', Place(s.all, c));
      case _ =>
        assert SerialsStay(s, s');
        AgedSame(s, s');
    }
  }

  lemma StillAged(s: State, e: Event)
    requires Inv(s) && Enabled(s, e) && Safe(s, e) && Aged(s)
    ensures Aged(Next(s, e))
  {
    hide Inv, Aged, WaitPass, WaitAnswer, Place, ThreadStart;
    SerialsBelow(s);
    match e {
      case StartThread => AgedAfterStart(s);
      case EndFork(p) =>
        PidsHas(s);
        ForkIsNew(s, p);
        AgedBehind(s, Next(s, e), s.procs[p].phase.child);
      case Wait(p) => AgedAfterWait(s, p);
      case _ => AgedSame(s, Next(s, e));
    }
  }

  /** The first hanging child on the list is the oldest. */
  lemma FirstIsOldest(s: State, p: Pid, d: Pid)
    requires Inv(s) && Aged(s) && WaitAnswer(s, p).Child? && HangingChild(s, d, p)
    ensures var c := WaitAnswer(s, p).pid; c in s.procs && s.procs[c].serial <= s.procs[d].serial
  {
    hide PidsOk, FamilyOk, WaitersOk, SerialsOk, FirstChild;
    PidsHas(s);
    FirstChildIs(s, p, true);
    var i := FirstChild(s, p, true);
    var j :| 0 <= j < |s.all| && s.all[j] == d;
    assert i <= j;
  }

  /** Of several hanging children sys_wait returns the oldest. */
  lemma OldestFirst(run: seq<State>, events: seq<Event>, i: nat, p: Pid, d: Pid)
    requires IsRun(run, events) && Inv(run[0]) && Aged(run[0]) && i < |run|
    requires WaitAnswer(run[i], p).Child? && HangingChild(run[i], d, p)
    ensures var c := WaitAnswer(run[i], p).pid;
            c in run[i].procs && run[i].procs[c].serial <= run[i].procs[d].serial
  {
    RunsAreSound(run, events);
    hide Inv, Enabled, Safe, Next, Aged, WaitAnswer;
    for m := 0 to i
      invariant Aged(run[m])
    {
      StillAged(run[m], events[m]);
    }
    FirstIsOldest(run[i], p, d);
  }

  // --- The code ---

  /** LowestClear is what bitmap_scan finds. */
  lemma ScanIsLowest(bits: seq<bool>, r: nat)
    requires r < |bits| && !bits[r] && forall k: nat :: k < r ==> !ClearRun(bits, k, 1)
    ensures LowestClear(bits, 0) == r
  {
    LowestClearIs(bits, 0);
    var k := LowestClear(bits, 0);
    if k < r {
      assert ClearRun(bits, k, 1);
    }
  }

  /** The list of all threads and the pid bitmap. A method ends where its process may be switched away from. */
  class Table {
    var all: seq<Pid>
    var procs: map<Pid, Proc>
    const pidBitmap: Bitmap
    var next: nat
    ghost var exited: map<nat, int>
    ghost var returned: map<nat, int>

    constructor (s: State, pids: array<byte>)
      requires 8 * pids.Length == MAX_PIDS && s.bits == BitsOf(pids[..])
      ensures Shape() && S() == s && pidBitmap.bits == pids
    {
      all, procs, next, exited, returned := s.all, s.procs, s.next, s.exited, s.returned;
      pidBitmap := new Bitmap(pids, 0, pids.Length);
    }

    ghost predicate Shape() {
      pidBitmap.start == 0 && pidBitmap.bytesLen == pidBitmap.bits.Length && 8 * pidBitmap.bits.Length == MAX_PIDS
    }

    ghost function S(): State
      reads this, pidBitmap.bits
    {
      State(all, procs, pidBitmap.All(), next, exited, returned)
    }

    /** allocate_pid */
    method AllocatePid() returns (pid: Pid)
      requires Shape() && LowestClear(S().bits, 0) < |S().bits|
      modifies pidBitmap.bits
      ensures pid == LowestClear(old(S()).bits, 0) + 1
      ensures S() == old(S()).(bits := old(S()).bits[pid - 1 := true])
    {
      hide BitsOf;
      assert pidBitmap.Bits() == S().bits;
      ghost var bits := S().bits;
      LowestClearIs(bits, 0);
      assert ClearRun(bits, LowestClear(bits, 0), 1);
      var bitIdx := pidBitmap.Scan(1);
      assert pidBitmap.Bits() == bits;
      ScanIsLowest(bits, bitIdx);
      pidBitmap.Set(bitIdx, true);
      pid := bitIdx + 1;
    }

    /** release_pid */
    method ReleasePid(pid: Pid)
      requires Shape() && 1 <= pid <= MAX_PIDS
      modifies pidBitmap.bits
      ensures S() == old(S()).(bits := old(S()).bits[pid - 1 := false])
    {
      hide BitsOf;
      pidBitmap.Set(pid - 1, false);
    }

    /** sys_fork up to the child's pid */
    method SysForkBegin(p: Pid)
      requires Shape() && Inv(S()) && Enabled(S(), BeginFork(p))
      modifies this, pidBitmap.bits
      ensures Shape() && S() == ForkBegin(old(S()), p) && Inv(S())
    {
      hide Inv;
      StepKeepsInv(S(), BeginFork(p));
      var pid := AllocatePid();
      procs := procs[p := procs[p].(phase := Forking(pid))];
    }

    /** The rest of sys_fork: the child is put on the list. */
    method SysForkEnd(p: Pid) returns (pid: Pid)
      requires Shape() && Inv(S()) && Enabled(S(), EndFork(p))
      modifies this
      ensures Shape() && S() == ForkEnd(old(S()), p) && Inv(S()) && pid == old(procs[p].phase.child)
    {
      hide Inv;
      StepKeepsInv(S(), EndFork(p));
      pid := procs[p].phase.child;
      var parent := procs[p];
      procs := procs[p := parent.(phase := Elsewhere)];
      procs := procs[pid := Proc(next, p, Runnable, parent.exitStatus, Elsewhere)];
      next := next + 1;
      all := all + [pid];
    }

    /** list_traversal with find_hanging_child or find_child */
    method Traverse(p: Pid, onlyHanging: bool) returns (r: int)
      requires Shape() && forall q :: q in all <==> q in procs
      ensures r == FirstChild(S(), p, onlyHanging)
    {
      ghost var s := S();
      ghost var f := (c: Pid) => if onlyHanging then HangingChild(s, c, p) else IsChild(s, c, p);
      r := -1;
      for i := 0 to |all|
        invariant forall k :: 0 <= k < i ==> !f(all[k])
      {
        var t := procs[all[i]];
        assert f(all[i]) <==> t.parent == p && (!onlyHanging || t.status == Hanging);
        if t.parent == p && (!onlyHanging || t.status == Hanging) {
          FirstUnique(all, f, i);
          return i;
        }
      }
      FirstUnique(all, f, -1);
    }

    /** One pass through sys_wait's loop, up to the switch if it sleeps. */
    method SysWaitPass(p: Pid) returns (a: Answer)
      requires Shape() && Inv(S()) && Enabled(S(), Wait(p))
      modifies this, pidBitmap.bits
      ensures Shape() && a == WaitAnswer(old(S()), p)
      ensures Safe(old(S()), Wait(p)) && S() == WaitPass(old(S()), p) && Inv(S())
    {
      ghost var s := S();
      hide Inv, FirstChild, Place, PidsOk, FamilyOk, WaitersOk, SerialsOk;
      PidsHas(s);
      StepKeepsInv(s, Wait(p));
      var i := Traverse(p, true);
      if i != -1 {
        a := Child(all[i], procs[all[i]].exitStatus);
        ThreadExit(all[i]);
        procs := procs[p := procs[p].(phase := Elsewhere)];
        assert procs == (s.procs - {a.pid})[p := s.procs[p].(phase := Elsewhere)];
      } else {
        var j := Traverse(p, false);
        if j == -1 {
          a := NoChild;
          procs := procs[p := procs[p].(phase := Elsewhere)];
        } else {
          a := Asleep;
          procs := procs[p := procs[p].(status := Waiting, phase := InWait)];
        }
      }
    }

    /** thread_exit */
    method ThreadExit(c: Pid)
      requires Shape() && c in procs && 1 <= c <= MAX_PIDS && Place(all, c) != -1
      modifies this, pidBitmap.bits
      ensures S() == Reaped(old(S()), c)
    {
      ghost var f := (q: Pid) => q == c;
      FirstIs(all, f);
      var i := 0;
      while all[i] != c
        invariant 0 <= i <= First(all, f)
        decreases |all| - i
      {
        i := i + 1;
      }
      all := all[..i] + all[i + 1..];
      returned := returned[procs[c].serial := procs[c].exitStatus];
      procs := procs - {c};
      ReleasePid(c);
    }

    /** sys_exit up to the release of the process's resources */
    method SysExitBegin(p: Pid, st: int)
      requires Shape() && Inv(S()) && Enabled(S(), BeginExit(p, st))
      modifies this
      ensures S() == ExitBegin(old(S()), p, st) && Inv(S())
    {
      ghost var s := S();
      hide Inv;
      StepKeepsInv(s, BeginExit(p, st));
      PidsHas(s);
      procs := procs[p := procs[p].(exitStatus := st)];
      InitAdopts(p);
      procs := procs[p := procs[p].(phase := Exiting)];
      exited := exited[s.procs[p].serial := st];
    }

    /** list_traversal with init_adopt_a_child */
    method InitAdopts(p: Pid)
      requires forall q :: q in all <==> q in procs
      modifies this`procs
      ensures procs == Adopted(old(procs), p)
    {
      for i := 0 to |all|
        invariant procs.Keys == old(procs).Keys
        invariant forall q :: q in procs ==>
                    procs[q] == if q in all[..i] && old(procs)[q].parent == p then old(procs)[q].(parent := INIT) else old(procs)[q]
      {
        if procs[all[i]].parent == p {
          procs := procs[all[i] := procs[all[i]].(parent := INIT)];
        }
        assert all[..i + 1] == all[..i] + [all[i]];
      }
      assert all[..|all|] == all;
    }

    /** The rest of sys_exit: pid2thread, the parent is woken, and the process hangs. */
    method SysExitEnd(p: Pid)
      requires Shape() && Inv(S()) && Enabled(S(), EndExit(p))
      modifies this
      ensures Safe(old(S()), EndExit(p)) && S() == ExitEnd(old(S()), p) && Inv(S())
    {
      hide Inv;
      StepKeepsInv(S(), EndExit(p));
      var parent := procs[p].parent;
      if procs[parent].status == Waiting {
        procs := procs[parent := procs[parent].(status := Runnable)];
      }
      procs := procs[p := procs[p].(status := Hanging)];
    }
  }

  lemma PidsHas(s: State)
    requires Inv(s)
    ensures forall q :: q in s.all <==> q in s.procs
  {
  }

  lemma FirstUnique(all: seq<Pid>, f: Pid -> bool, r: int)
    requires -1 <= r < |all|
    requires if r == -1 then forall k :: 0 <= k < |all| ==> !f(all[k]) else f(all[r]) && forall k :: 0 <= k < r ==> !f(all[k])
    ensures First(all, f) == r
  {
    FirstIs(all, f);
  }
}
