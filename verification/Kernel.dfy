/** Processes and semaphores on top of the scheduler: kernel/thread/process.c (fork, wait, exit),
    kernel/thread/schedule/segment.c and the system calls of kernel/thread/thread.c. A system
    call runs with interrupts off, so each one is a single step up to its schedule(). */
module Kernel {
  import opened Chunks
  import opened Lists
  import opened Segment
  import opened Scheduler

  const INIT: Tid := 1
  const INIT_PID := 1
  const PIDS := 1024
  const NO_PID := 0xFFFF_FFFF

  /** The scheduler, all_tasks, the semaphores, the pid bitmap, and the tasks reaped so far in
      order. */
  datatype State = State(s: Sched, all: seq<Tid>, sems: seq<Seg>, used: set<nat>, reaped: seq<Tid>)

  /** What the running task does next: the timer interrupt or a call. */
  datatype Event = Tick | Yield | Sleep(ticks: nat) | SemWait(i: nat) | SemWakeup(i: nat) | Fork | Wait | Exit

  /** alloc_pid: the lowest free pid, PIDS if there is none. */
  function FreePid(used: set<nat>, from: nat): (r: nat)
    requires from <= PIDS
    ensures from <= r <= PIDS
    ensures r < PIDS ==> r !in used
    ensures forall p :: from <= p < r ==> p in used
    decreases PIDS - from
  {
    if from == PIDS || from !in used then from else FreePid(used, from + 1)
  }

  /** pid2task. */
  function FindPid(tasks: seq<Task>, all: seq<Tid>, pid: nat): (r: Option<Tid>)
    ensures r.Some? ==> r.value in all && r.value < |tasks| && tasks[r.value].pid == pid
    ensures r.None? ==> forall t: Tid :: t in all && t < |tasks| ==> tasks[t].pid != pid
  {
    if all == [] then None
    else if all[0] < |tasks| && tasks[all[0]].pid == pid then Some(all[0])
    else FindPid(tasks, all[1..], pid)
  }

  predicate IsChild(tasks: seq<Task>, t: Tid, ppid: nat, hanging: bool) {
    t < |tasks| && tasks[t].ppid == ppid && (hanging ==> tasks[t].status.HANGING?)
  }

  /** thread_child: the first child in all_tasks, of any status or a hanging one. */
  function Child(tasks: seq<Task>, all: seq<Tid>, ppid: nat, hanging: bool): (r: Option<Tid>)
    ensures r.Some? ==> r.value in all && IsChild(tasks, r.value, ppid, hanging)
    ensures r.None? ==> forall t: Tid :: t in all ==> !IsChild(tasks, t, ppid, hanging)
  {
    if all == [] then None
    else if IsChild(tasks, all[0], ppid, hanging) then Some(all[0])
    else Child(tasks, all[1..], ppid, hanging)
  }

  /** rechild2init over all_tasks. */
  function Rechild(tasks: seq<Task>, all: seq<Tid>, from: nat): (r: seq<Task>)
    ensures |r| == |tasks|
  {
    seq(|tasks|, t requires 0 <= t < |tasks| =>
      if t in all && tasks[t].ppid == from then tasks[t].(ppid := INIT_PID) else tasks[t])
  }

  /** The idle thread only halts: it makes no call, and what runs in its time is the timer or an
      interrupt handler that wakes a waiter. */
  predicate Enabled(k: State, e: Event) {
    && k.s.cur < |k.s.tasks|
    && match e
       case Tick => true
       case Yield => k.s.cur != IDLE
       case Sleep(_) => k.s.cur != IDLE
       case SemWait(i) => i < |k.sems| && k.s.cur != IDLE
       case SemWakeup(i) => i < |k.sems|
       case Fork => k.s.cur != IDLE && FreePid(k.used, 0) < PIDS
       case Wait => k.s.cur != IDLE
       case Exit => k.s.cur != IDLE && k.s.cur != INIT
  }

  /** The running task changes its status and the processor goes to another one. */
  function Leave(s: Sched, status: Status): (r: Sched)
    requires s.cur < |s.tasks|
  {
    Schedule(SetStatus(s, s.cur, status, false))
  }

  function Slumber(s: Sched, ticks: nat): (r: Sched)
    requires s.cur < |s.tasks|
  {
    s.(tasks := s.tasks[s.cur := s.tasks[s.cur].(sleepTicks := ticks)])
  }

  function DoFork(k: State): (r: State)
    requires k.s.cur < |k.s.tasks|
  {
    var pid := FreePid(k.used, 0);
    k.(s := Spawn(k.s, pid, k.s.tasks[k.s.cur].pid), all := k.all + [|k.s.tasks|], used := k.used + {pid})
  }

  /** thread_exit of the hanging child `h`. */
  function Reap(k: State, h: Tid): (r: State)
    requires h < |k.s.tasks|
  {
    k.(s := SetStatus(k.s, h, DIED, false), all := Remove(k.all, h),
       used := k.used - {k.s.tasks[h].pid}, reaped := k.reaped + [h])
  }

  /** One round of the loop of process_wait. */
  function DoWait(k: State): (r: State)
    requires k.s.cur < |k.s.tasks|
  {
    var pid := k.s.tasks[k.s.cur].pid;
    match Child(k.s.tasks, k.all, pid, true)
    case Some(h) => Reap(k, h)
    case None => if Child(k.s.tasks, k.all, pid, false).None? then k else k.(s := Leave(k.s, WAITING))
  }

  /** process_exit up to the change of its own status. */
  function Orphan(k: State): (r: Sched)
    requires k.s.cur < |k.s.tasks|
    ensures |r.tasks| == |k.s.tasks| && r.cur == k.s.cur
  {
    var s := k.s.(tasks := Rechild(k.s.tasks, k.all, k.s.tasks[k.s.cur].pid));
    match FindPid(s.tasks, k.all, s.tasks[s.cur].ppid)
    case Some(p) => if s.tasks[p].status.WAITING? then SetStatus(s, p, READY, false) else s
    case None => s
  }

  function DoSemWait(k: State, i: nat): (r: State)
    requires k.s.cur < |k.s.tasks| && i < |k.sems|
  {
    k.(sems := k.sems[i := Segment.Wait(k.sems[i], k.s.cur)],
       s := if k.sems[i].count > 0 then k.s else Leave(k.s, BLOCKED))
  }

  function DoWakeup(k: State, i: nat): (r: State)
    requires i < |k.sems|
  {
    k.(sems := k.sems[i := Wakeup(k.sems[i])],
       s := match Woken(k.sems[i])
            case Some(w) => if w < |k.s.tasks| then SetStatus(k.s, w, READY, true) else k.s
            case None => k.s)
  }

  function Step(k: State, e: Event): (r: State)
    requires Enabled(k, e)
  {
    match e
    case Tick => k.(s := Schedule(k.s))
    case Yield => k.(s := Leave(k.s, READY))
    case Sleep(ticks) => k.(s := Leave(Slumber(k.s, ticks), SLEEP))
    case SemWait(i) => DoSemWait(k, i)
    case SemWakeup(i) => DoWakeup(k, i)
    case Fork => DoFork(k)
    case Wait => DoWait(k)
    case Exit => k.(s := Leave(Orphan(k), HANGING))
  }

  /** The idle thread runs, init is ready, and nobody waits. */
  function Boot(units: seq<nat>): (r: State) {
    State(Sched([Task(RUNNING, false, 0, NO_PID, 1, 1, 0), Task(READY, true, INIT_PID, 0, 31, 31, 0)],
                [INIT], [], IDLE),
          [IDLE, INIT], seq(|units|, i requires 0 <= i < |units| => Seg(units[i], [])), {0, INIT_PID}, [])
  }

  // ------------------------------------------------------------------ the invariant

  /** A positive count means no waiters; the waiters are blocked, each once. */
  ghost predicate SemOk(tasks: seq<Task>, sem: Seg) {
    && (sem.count > 0 ==> sem.waiters == [])
    && NoDup(sem.waiters)
    && forall t: Tid :: t in sem.waiters ==> t < |tasks| && tasks[t].status.BLOCKED?
  }

  ghost predicate InSome(sems: seq<Seg>, t: Tid) {
    exists i :: 0 <= i < |sems| && t in sems[i].waiters
  }

  /** The blocked tasks are exactly the waiters, each at one semaphore. */
  ghost predicate SemInv(tasks: seq<Task>, sems: seq<Seg>) {
    && (forall i :: 0 <= i < |sems| ==> SemOk(tasks, sems[i]))
    && (forall t :: 0 <= t < |tasks| && tasks[t].status.BLOCKED? ==> InSome(sems, t))
    && (forall i, j, t: Tid :: 0 <= i < |sems| && 0 <= j < |sems| && t in sems[i].waiters && t in sems[j].waiters ==>
          i == j)
  }

  /** all_tasks holds the tasks that are not DIED, and a task is DIED once it was reaped. */
  ghost predicate Members(tasks: seq<Task>, all: seq<Tid>, reaped: seq<Tid>) {
    && NoDup(all) && NoDup(reaped)
    && (forall t: Tid :: t in all <==> t < |tasks| && !tasks[t].status.DIED?)
    && (forall t: Tid :: t in reaped <==> t < |tasks| && tasks[t].status.DIED?)
  }

  ghost predicate HasPid(tasks: seq<Task>, all: seq<Tid>, pid: nat) {
    exists t: Tid :: t in all && t < |tasks| && tasks[t].pid == pid
  }

  /** Pids are distinct, and a pid is taken in the bitmap exactly while its process is there. */
  ghost predicate Pids(tasks: seq<Task>, all: seq<Tid>, used: set<nat>) {
    && (forall t: Tid :: t in all && t < |tasks| ==> tasks[t].pid in used)
    && (forall pid :: pid in used ==> pid < PIDS && HasPid(tasks, all, pid))
    && (forall a: Tid, b: Tid ::
          a in all && b in all && a < |tasks| && b < |tasks| && tasks[a].pid == tasks[b].pid ==> a == b)
  }

  /** `p` is a process that is still there and has not exited, with this pid. */
  predicate Parent(tasks: seq<Task>, all: seq<Tid>, p: Tid, pid: nat) {
    p in all && p < |tasks| && tasks[p].pid == pid && !tasks[p].status.HANGING?
  }

  ghost predicate HasParent(tasks: seq<Task>, all: seq<Tid>, pid: nat) {
    exists p: Tid :: Parent(tasks, all, p, pid)
  }

  /** Every process but the idle thread has a parent that has not exited. */
  ghost predicate Tree(tasks: seq<Task>, all: seq<Tid>) {
    forall t: Tid :: t in all && t < |tasks| && t != IDLE ==>
      tasks[t].ppid != tasks[t].pid && HasParent(tasks, all, tasks[t].ppid)
  }

  ghost predicate Roots(tasks: seq<Task>, all: seq<Tid>) {
    && |tasks| > INIT && IDLE in all && INIT in all
    && tasks[IDLE].pid == 0 && tasks[INIT].pid == INIT_PID && tasks[INIT].ppid == 0
    && Parent(tasks, all, INIT, INIT_PID)
  }

  ghost predicate HasChild(tasks: seq<Task>, all: seq<Tid>, ppid: nat, hanging: bool) {
    exists c: Tid :: c in all && IsChild(tasks, c, ppid, hanging)
  }

  /** A process blocked in process_wait has a child to wait for and, unless it is init, none that
      already hangs. */
  ghost predicate WaitOk(tasks: seq<Task>, all: seq<Tid>) {
    forall p: Tid :: p in all && p < |tasks| && tasks[p].status.WAITING? ==>
      && HasChild(tasks, all, tasks[p].pid, false)
      && (p != INIT ==> !HasChild(tasks, all, tasks[p].pid, true))
  }

  ghost predicate ProcInv(tasks: seq<Task>, all: seq<Tid>, used: set<nat>, reaped: seq<Tid>) {
    && Members(tasks, all, reaped) && Pids(tasks, all, used) && Roots(tasks, all)
    && Tree(tasks, all) && WaitOk(tasks, all)
  }

  ghost predicate KernelInv(k: State) {
    Inv(k.s) && SemInv(k.s.tasks, k.sems) && ProcInv(k.s.tasks, k.all, k.used, k.reaped)
  }

  // ------------------------------------------------------------------ what leaves it alone

  /** The same as far as the process tree is concerned. */
  ghost predicate SameProc(a: Task, b: Task) {
    && a.pid == b.pid && a.ppid == b.ppid
    && a.status.WAITING? == b.status.WAITING? && a.status.HANGING? == b.status.HANGING?
    && a.status.DIED? == b.status.DIED?
  }

  ghost predicate SameProcs(a: seq<Task>, b: seq<Task>) {
    |a| == |b| && forall t :: 0 <= t < |a| ==> SameProc(a[t], b[t])
  }

  /** The same parents and children, and the same ones have exited. */
  ghost predicate SameKin(a: seq<Task>, b: seq<Task>) {
    && |a| == |b|
    && forall t :: 0 <= t < |a| ==>
         a[t].pid == b[t].pid && a[t].ppid == b[t].ppid && a[t].status.HANGING? == b[t].status.HANGING?
  }

  ghost predicate SameBlocked(a: seq<Task>, b: seq<Task>) {
    |a| == |b| && forall t :: 0 <= t < |a| ==> a[t].status.BLOCKED? == b[t].status.BLOCKED?
  }

  lemma {:induction false} SemFrame(a: seq<Task>, b: seq<Task>, sems: seq<Seg>)
    requires SemInv(a, sems) && SameBlocked(a, b)
    ensures SemInv(b, sems)
  {
    hide NoDup, InSome;
    forall i | 0 <= i < |sems| ensures SemOk(b, sems[i]) {
      assert SemOk(a, sems[i]);
    }
  }

  lemma {:induction false} ChildFrame(a: seq<Task>, b: seq<Task>, all: seq<Tid>, ppid: nat, hanging: bool)
    requires SameProcs(a, b)
    ensures HasChild(a, all, ppid, hanging) <==> HasChild(b, all, ppid, hanging)
  {
    if HasChild(a, all, ppid, hanging) {
      var c: Tid :| c in all && IsChild(a, c, ppid, hanging);
      assert IsChild(b, c, ppid, hanging);
    }
    if HasChild(b, all, ppid, hanging) {
      var c: Tid :| c in all && IsChild(b, c, ppid, hanging);
      assert IsChild(a, c, ppid, hanging);
    }
  }

  lemma {:induction false} WaitFrame(a: seq<Task>, b: seq<Task>, all: seq<Tid>)
    requires WaitOk(a, all) && SameProcs(a, b)
    ensures WaitOk(b, all)
  {
    hide HasChild;
    forall p: Tid | p in all && p < |b| && b[p].status.WAITING?
      ensures HasChild(b, all, b[p].pid, false) && (p != INIT ==> !HasChild(b, all, b[p].pid, true))
    {
      assert SameProc(a[p], b[p]);
      ChildFrame(a, b, all, a[p].pid, false);
      ChildFrame(a, b, all, a[p].pid, true);
    }
  }

  lemma {:induction false} ParentFrame(a: seq<Task>, b: seq<Task>, all: seq<Tid>, pid: nat)
    requires HasParent(a, all, pid) && SameKin(a, b)
    ensures HasParent(b, all, pid)
  {
    var p: Tid :| Parent(a, all, p, pid);
    assert Parent(b, all, p, pid);
  }

  lemma {:induction false} TreeFrame(a: seq<Task>, b: seq<Task>, all: seq<Tid>)
    requires Tree(a, all) && SameKin(a, b)
    ensures Tree(b, all)
  {
    hide HasParent;
    forall t: Tid | t in all && t < |b| && t != IDLE
      ensures b[t].ppid != b[t].pid && HasParent(b, all, b[t].ppid)
    {
      ParentFrame(a, b, all, a[t].ppid);
    }
  }

  lemma {:induction false} PidsFrame(a: seq<Task>, b: seq<Task>, all: seq<Tid>, used: set<nat>)
    requires Pids(a, all, used) && |a| == |b| && forall t :: 0 <= t < |a| ==> a[t].pid == b[t].pid
    ensures Pids(b, all, used)
  {
    forall pid | pid in used ensures HasPid(b, all, pid) {
      assert HasPid(a, all, pid);
      var t: Tid :| t in all && t < |a| && a[t].pid == pid;
      assert b[t].pid == pid;
    }
  }

  lemma {:induction false} ProcFrame(a: seq<Task>, b: seq<Task>, all: seq<Tid>, used: set<nat>, reaped: seq<Tid>)
    requires ProcInv(a, all, used, reaped) && SameProcs(a, b)
    ensures ProcInv(b, all, used, reaped)
  {
    hide WaitOk, Tree, Pids, NoDup;
    WaitFrame(a, b, all);
    TreeFrame(a, b, all);
    PidsFrame(a, b, all, used);
  }

  /** schedule leaves blocked tasks and the process tree alone. */
  lemma {:induction false} ScheduleKeeps(s: Sched)
    requires Pre(s)
    ensures SameProcs(s.tasks, Schedule(s).tasks) && SameBlocked(s.tasks, Schedule(s).tasks)
  {
    hide Schedule, Pre;
    forall t | 0 <= t < |s.tasks|
      ensures |Schedule(s).tasks| == |s.tasks| && SameProc(s.tasks[t], Schedule(s).tasks[t])
      ensures s.tasks[t].status.BLOCKED? == Schedule(s).tasks[t].status.BLOCKED?
    {
      ScheduleFrame(s, t);
    }
  }

  /** A step that ends in schedule() keeps the invariant if it holds for the processes and the
      semaphores before. */
  lemma {:induction false} AfterSchedule(k: State)
    requires Pre(k.s) && SemInv(k.s.tasks, k.sems) && ProcInv(k.s.tasks, k.all, k.used, k.reaped)
    ensures KernelInv(k.(s := Schedule(k.s)))
  {
    hide Schedule, Pre, Inv, SemInv, ProcInv, SameProcs, SameBlocked;
    ScheduleInv(k.s);
    ScheduleKeeps(k.s);
    SemFrame(k.s.tasks, Schedule(k.s).tasks, k.sems);
    ProcFrame(k.s.tasks, Schedule(k.s).tasks, k.all, k.used, k.reaped);
  }

  // ------------------------------------------------------------------ steps that only schedule

  lemma {:induction false} StepTick(k: State)
    requires KernelInv(k)
    ensures KernelInv(Step(k, Tick))
  {
    hide Schedule, SemInv, ProcInv, Pre;
    AfterSchedule(k);
  }

  lemma {:induction false} CurFacts(s: Sched)
    requires Inv(s)
    ensures s.cur < |s.tasks| && s.tasks[s.cur].status.Runnable()
  {
  }

  /** The running task lets go of the processor without waiting for a child. */
  lemma {:induction false} LeaveKeeps(s: Sched, status: Status)
    requires Inv(s) && (status.READY? || status.SLEEP? || status.BLOCKED?)
    ensures SameProcs(s.tasks, SetStatus(s, s.cur, status, false).tasks)
    ensures !status.BLOCKED? ==> SameBlocked(s.tasks, SetStatus(s, s.cur, status, false).tasks)
  {
    hide NoDup, Placed, Remove;
  }

  lemma {:induction false} LeaveInv(k: State, status: Status)
    requires KernelInv(k) && (status.READY? || status.SLEEP?) && (status.READY? || k.s.cur != IDLE)
    ensures KernelInv(k.(s := Leave(k.s, status)))
  {
    hide Schedule, Pre, SemInv, ProcInv, SameProcs, SameBlocked, SetStatus, Inv;
    CurFacts(k.s);
    var s := SetStatus(k.s, k.s.cur, status, false);
    GiveUp(k.s, status);
    LeaveKeeps(k.s, status);
    SemFrame(k.s.tasks, s.tasks, k.sems);
    ProcFrame(k.s.tasks, s.tasks, k.all, k.used, k.reaped);
    AfterSchedule(k.(s := s));
  }

  lemma {:induction false} SlumberInv(k: State, ticks: nat)
    requires KernelInv(k)
    ensures KernelInv(k.(s := Slumber(k.s, ticks)))
  {
    hide SemInv, ProcInv;
    SlumberSched(k.s, ticks);
    SemFrame(k.s.tasks, Slumber(k.s, ticks).tasks, k.sems);
    ProcFrame(k.s.tasks, Slumber(k.s, ticks).tasks, k.all, k.used, k.reaped);
  }

  lemma {:induction false} SlumberSched(s: Sched, ticks: nat)
    requires Inv(s)
    ensures Inv(Slumber(s, ticks))
  {
    hide NoDup;
    var r := Slumber(s, ticks);
    forall t | 0 <= t < |r.tasks| ensures Placed(r, t) {
      assert Placed(s, t);
    }
  }

  lemma {:induction false} StepSleep(k: State, ticks: nat)
    requires KernelInv(k) && Enabled(k, Sleep(ticks))
    ensures KernelInv(Step(k, Sleep(ticks)))
  {
    hide KernelInv, Leave;
    SlumberInv(k, ticks);
    LeaveInv(k.(s := Slumber(k.s, ticks)), SLEEP);
  }

  // ------------------------------------------------------------------ semaphores

  lemma {:induction false} SemTake(tasks: seq<Task>, sems: seq<Seg>, i: nat, t: Tid)
    requires SemInv(tasks, sems) && i < |sems| && sems[i].count > 0
    ensures SemInv(tasks, sems[i := Segment.Wait(sems[i], t)])
  {
    hide NoDup;
    var r := sems[i := Segment.Wait(sems[i], t)];
    assert SemOk(tasks, sems[i]);
    forall x | 0 <= x < |tasks| && tasks[x].status.BLOCKED? ensures InSome(r, x) {
      InSomeSame(sems, r, x);
    }
  }

  lemma {:induction false} InSomeSame(a: seq<Seg>, b: seq<Seg>, t: Tid)
    requires |a| == |b| && (forall i :: 0 <= i < |a| && t in a[i].waiters ==> t in b[i].waiters) && InSome(a, t)
    ensures InSome(b, t)
  {
  }

  /** Queueing up: a task that was not blocked becomes the last waiter. */
  lemma {:induction false} SemBlock(tasks: seq<Task>, b: seq<Task>, sems: seq<Seg>, i: nat, t: Tid)
    requires SemInv(tasks, sems) && i < |sems| && sems[i].count == 0
    requires |b| == |tasks| && t < |tasks| && !tasks[t].status.BLOCKED? && b == tasks[t := b[t]] && b[t].status.BLOCKED?
    ensures SemInv(b, sems[i := Segment.Wait(sems[i], t)])
  {
    hide NoDup, InSome;
    var r := sems[i := Segment.Wait(sems[i], t)];
    forall j | 0 <= j < |sems| ensures SemOk(tasks, sems[j]) && t !in sems[j].waiters && SemOk(b, sems[j]) {
      assert SemOk(tasks, sems[j]);
    }
    PushFacts(sems[i].waiters, t);
    forall x | 0 <= x < |b| && b[x].status.BLOCKED? ensures InSome(r, x) {
      if x == t {
        InSomeAt(r, i, t);
      } else {
        InSomeSame(sems, r, x);
      }
    }
  }

  lemma {:induction false} InSomeAt(sems: seq<Seg>, i: nat, t: Tid)
    requires i < |sems| && t in sems[i].waiters
    ensures InSome(sems, t)
  {
  }

  /** Releasing: the first waiter is no longer blocked. */
  lemma {:induction false} SemRelease(tasks: seq<Task>, b: seq<Task>, sems: seq<Seg>, i: nat)
    requires SemInv(tasks, sems) && i < |sems| && sems[i].waiters != []
    requires var w := sems[i].waiters[0];
             |b| == |tasks| && (w < |tasks| ==> b == tasks[w := b[w]] && !b[w].status.BLOCKED?)
    ensures SemInv(b, sems[i := Wakeup(sems[i])])
  {
    hide NoDup, InSome;
    var w, r := sems[i].waiters[0], sems[i := Wakeup(sems[i])];
    assert SemOk(tasks, sems[i]) && w in sems[i].waiters;
    PopFacts(sems[i].waiters);
    forall j | 0 <= j < |sems| ensures SemOk(b, r[j]) {
      assert SemOk(tasks, sems[j]);
    }
    forall x | 0 <= x < |b| && b[x].status.BLOCKED? ensures InSome(r, x) {
      InSomeSame(sems, r, x);
    }
  }

  lemma {:induction false} SemGive(tasks: seq<Task>, sems: seq<Seg>, i: nat)
    requires SemInv(tasks, sems) && i < |sems| && sems[i].waiters == []
    ensures SemInv(tasks, sems[i := Wakeup(sems[i])])
  {
    hide NoDup, InSome;
    var r := sems[i := Wakeup(sems[i])];
    assert SemOk(tasks, sems[i]);
    forall x | 0 <= x < |tasks| && tasks[x].status.BLOCKED? ensures InSome(r, x) {
      InSomeSame(sems, r, x);
    }
  }

  lemma {:induction false} StepSemWait(k: State, i: nat)
    requires KernelInv(k) && Enabled(k, SemWait(i))
    ensures KernelInv(Step(k, SemWait(i)))
  {
    hide Schedule, Pre, SemInv, ProcInv, SameProcs, SameBlocked, NoDup, Remove;
    if k.sems[i].count > 0 {
      SemTake(k.s.tasks, k.sems, i, k.s.cur);
    } else {
      CurFacts(k.s);
      var s := SetStatus(k.s, k.s.cur, BLOCKED, false);
      GiveUp(k.s, BLOCKED);
      LeaveKeeps(k.s, BLOCKED);
      SemBlock(k.s.tasks, s.tasks, k.sems, i, k.s.cur);
      ProcFrame(k.s.tasks, s.tasks, k.all, k.used, k.reaped);
      AfterSchedule(k.(s := s, sems := k.sems[i := Segment.Wait(k.sems[i], k.s.cur)]));
    }
  }

  lemma {:induction false} StepSemWakeup(k: State, i: nat)
    requires KernelInv(k) && Enabled(k, SemWakeup(i))
    ensures KernelInv(Step(k, SemWakeup(i)))
  {
    hide Pre, Inv, ProcInv, NoDup, Remove;
    if k.sems[i].waiters == [] {
      SemGive(k.s.tasks, k.sems, i);
    } else {
      var w := k.sems[i].waiters[0];
      assert SemOk(k.s.tasks, k.sems[i]) && w in k.sems[i].waiters;
      MakeReady(k.s, w, true);
      var s := SetStatus(k.s, w, READY, true);
      SemRelease(k.s.tasks, s.tasks, k.sems, i);
      ProcFrame(k.s.tasks, s.tasks, k.all, k.used, k.reaped);
    }
  }

  // ------------------------------------------------------------------ fork

  lemma {:induction false} ForkSem(tasks: seq<Task>, c: Task, sems: seq<Seg>)
    requires SemInv(tasks, sems) && !c.status.BLOCKED?
    ensures SemInv(tasks + [c], sems)
  {
    hide NoDup, InSome;
    forall i | 0 <= i < |sems| ensures SemOk(tasks + [c], sems[i]) {
      assert SemOk(tasks, sems[i]);
    }
  }

  /** The new process: a copy of a live one with a free pid and that one as its parent. */
  ghost predicate Born(tasks: seq<Task>, all: seq<Tid>, used: set<nat>, c: Task) {
    c.status.Runnable() && c.pid !in used && c.pid < PIDS && HasParent(tasks, all, c.ppid) && c.ppid in used
  }

  lemma {:induction false} ForkMembers(tasks: seq<Task>, all: seq<Tid>, reaped: seq<Tid>, c: Task)
    requires Members(tasks, all, reaped) && c.status.Runnable()
    ensures Members(tasks + [c], all + [|tasks|], reaped)
  {
    hide NoDup;
    PushFacts(all, |tasks|);
  }

  lemma {:induction false} ForkPids(tasks: seq<Task>, all: seq<Tid>, used: set<nat>, c: Task)
    requires Pids(tasks, all, used) && Born(tasks, all, used, c) && forall t: Tid :: t in all ==> t < |tasks|
    ensures Pids(tasks + [c], all + [|tasks|], used + {c.pid})
  {
    var b, l := tasks + [c], all + [|tasks|];
    forall pid | pid in used + {c.pid} ensures HasPid(b, l, pid) {
      if pid in used {
        assert HasPid(tasks, all, pid);
        var t: Tid :| t in all && t < |tasks| && tasks[t].pid == pid;
        assert t in l && b[t].pid == pid;
      } else {
        assert |tasks| in l && b[|tasks|].pid == pid;
      }
    }
    forall x: Tid, y: Tid | x in l && y in l && x < |b| && y < |b| && b[x].pid == b[y].pid ensures x == y {
      assert x in all ==> tasks[x].pid in used;
      assert y in all ==> tasks[y].pid in used;
    }
  }

  lemma {:induction false} ParentMore(tasks: seq<Task>, all: seq<Tid>, c: Task, pid: nat)
    requires HasParent(tasks, all, pid)
    ensures HasParent(tasks + [c], all + [|tasks|], pid)
  {
    var p: Tid :| Parent(tasks, all, p, pid);
    assert Parent(tasks + [c], all + [|tasks|], p, pid);
  }

  lemma {:induction false} ForkTree(tasks: seq<Task>, all: seq<Tid>, used: set<nat>, c: Task)
    requires Tree(tasks, all) && Born(tasks, all, used, c) && forall t: Tid :: t in all ==> t < |tasks|
    ensures Tree(tasks + [c], all + [|tasks|])
  {
    hide HasParent;
    var b, l := tasks + [c], all + [|tasks|];
    forall t: Tid | t in l && t < |b| && t != IDLE ensures b[t].ppid != b[t].pid && HasParent(b, l, b[t].ppid) {
      ParentMore(tasks, all, c, if t < |tasks| then tasks[t].ppid else c.ppid);
    }
  }

  lemma {:induction false} ForkWait(tasks: seq<Task>, all: seq<Tid>, c: Task)
    requires WaitOk(tasks, all) && c.status.Runnable() && forall t: Tid :: t in all ==> t < |tasks|
    ensures WaitOk(tasks + [c], all + [|tasks|])
  {
    hide HasChild;
    var b, l := tasks + [c], all + [|tasks|];
    forall p: Tid | p in l && p < |b| && b[p].status.WAITING?
      ensures HasChild(b, l, b[p].pid, false) && (p != INIT ==> !HasChild(b, l, b[p].pid, true))
    {
      assert p in all && tasks[p].status.WAITING?;
      ChildMore(tasks, all, c, tasks[p].pid);
    }
  }

  lemma {:induction false} ChildMore(tasks: seq<Task>, all: seq<Tid>, c: Task, pid: nat)
    requires c.status.Runnable() && forall t: Tid :: t in all ==> t < |tasks|
    ensures HasChild(tasks, all, pid, false) ==> HasChild(tasks + [c], all + [|tasks|], pid, false)
    ensures HasChild(tasks + [c], all + [|tasks|], pid, true) ==> HasChild(tasks, all, pid, true)
  {
    var b, l := tasks + [c], all + [|tasks|];
    if HasChild(tasks, all, pid, false) {
      var d: Tid :| d in all && IsChild(tasks, d, pid, false);
      assert d in l && IsChild(b, d, pid, false);
    }
    if HasChild(b, l, pid, true) {
      var d: Tid :| d in l && IsChild(b, d, pid, true);
      assert d in all && IsChild(tasks, d, pid, true);
    }
  }

  lemma {:induction false} ForkProc(tasks: seq<Task>, all: seq<Tid>, used: set<nat>, reaped: seq<Tid>, c: Task)
    requires ProcInv(tasks, all, used, reaped) && Born(tasks, all, used, c)
    ensures ProcInv(tasks + [c], all + [|tasks|], used + {c.pid}, reaped)
  {
    hide Tree, WaitOk, Pids, Born;
    assert forall t: Tid :: t in all ==> t < |tasks|;
    assert c.status.Runnable() by { BornRuns(tasks, all, used, c); }
    hide Members;
    ForkMembers(tasks, all, reaped, c);
    ForkPids(tasks, all, used, c);
    ForkTree(tasks, all, used, c);
    ForkWait(tasks, all, c);
  }

  lemma {:induction false} BornRuns(tasks: seq<Task>, all: seq<Tid>, used: set<nat>, c: Task)
    requires Born(tasks, all, used, c)
    ensures c.status.Runnable()
  {
  }

  /** The running process is there, so it can be a parent and its pid is taken. */
  lemma {:induction false} CurParent(k: State)
    requires KernelInv(k)
    ensures k.s.cur < |k.s.tasks| && k.s.cur in k.all
    ensures Parent(k.s.tasks, k.all, k.s.cur, k.s.tasks[k.s.cur].pid) && k.s.tasks[k.s.cur].pid in k.used
    ensures k.s.tasks[k.s.cur].status.Runnable()
  {
    hide NoDup, Tree, WaitOk, SemInv, Placed;
  }

  lemma {:induction false} BornFrom(k: State, c: Task)
    requires KernelInv(k) && k.s.cur < |k.s.tasks| && c.ppid == k.s.tasks[k.s.cur].pid
    requires c.status == k.s.tasks[k.s.cur].status && c.pid !in k.used && c.pid < PIDS
    ensures Born(k.s.tasks, k.all, k.used, c)
  {
    hide KernelInv;
    CurParent(k);
  }

  lemma {:induction false} StepFork(k: State)
    requires KernelInv(k) && Enabled(k, Fork)
    ensures KernelInv(Step(k, Fork))
  {
    hide Inv, Pre, SemInv, ProcInv, NoDup, FreePid;
    CurParent(k);
    var pid := FreePid(k.used, 0);
    var cur := k.s.tasks[k.s.cur];
    var c := cur.(pid := pid, ppid := cur.pid, linked := true);
    SpawnInv(k.s, pid, cur.pid);
    ForkSem(k.s.tasks, c, k.sems);
    BornFrom(k, c);
    ForkProc(k.s.tasks, k.all, k.used, k.reaped, c);
  }

  // ------------------------------------------------------------------ wait

  /** What reaping does to the tasks. */
  ghost predicate Buried(a: seq<Task>, b: seq<Task>, h: Tid) {
    && h < |a| == |b| && a[h].status.HANGING? && b == a[h := a[h].(status := DIED)]
  }

  lemma {:induction false} ReapMembers(a: seq<Task>, b: seq<Task>, all: seq<Tid>, reaped: seq<Tid>, h: Tid)
    requires Members(a, all, reaped) && Buried(a, b, h)
    ensures h in all && Members(b, Remove(all, h), reaped + [h])
  {
    hide NoDup, Remove;
    assert h in all && h !in reaped;
    RemoveFacts(all, h);
    PushFacts(reaped, h);
  }

  lemma {:induction false} ReapPids(a: seq<Task>, b: seq<Task>, all: seq<Tid>, used: set<nat>, h: Tid)
    requires Pids(a, all, used) && Buried(a, b, h) && NoDup(all) && h in all
    ensures Pids(b, Remove(all, h), used - {a[h].pid})
  {
    hide NoDup, Remove;
    RemoveFacts(all, h);
    var l := Remove(all, h);
    forall pid | pid in used && pid != a[h].pid ensures HasPid(b, l, pid) {
      assert HasPid(a, all, pid);
      var t: Tid :| t in all && t < |a| && a[t].pid == pid;
      assert t in l && b[t].pid == pid;
    }
  }

  lemma {:induction false} ReapTree(a: seq<Task>, b: seq<Task>, all: seq<Tid>, h: Tid)
    requires Tree(a, all) && Buried(a, b, h) && NoDup(all) && h in all
    ensures Tree(b, Remove(all, h))
  {
    hide NoDup, Remove, HasParent;
    RemoveFacts(all, h);
    var l := Remove(all, h);
    forall t: Tid | t in l && t < |b| && t != IDLE ensures b[t].ppid != b[t].pid && HasParent(b, l, b[t].ppid) {
      ReapParent(a, b, all, h, a[t].ppid);
    }
  }

  /** A hanging process is nobody's parent. */
  lemma {:induction false} ReapParent(a: seq<Task>, b: seq<Task>, all: seq<Tid>, h: Tid, pid: nat)
    requires HasParent(a, all, pid) && Buried(a, b, h) && NoDup(all) && h in all
    ensures HasParent(b, Remove(all, h), pid)
  {
    hide NoDup, Remove;
    RemoveFacts(all, h);
    var p: Tid :| Parent(a, all, p, pid);
    assert Parent(b, Remove(all, h), p, pid);
  }

  /** Reaping takes a child only from the reaper, which does not wait. */
  lemma {:induction false} ReapWait(a: seq<Task>, b: seq<Task>, all: seq<Tid>, h: Tid)
    requires WaitOk(a, all) && Buried(a, b, h) && NoDup(all) && h in all
    requires forall p: Tid :: p in all && p < |a| && a[p].pid == a[h].ppid ==> !a[p].status.WAITING?
    ensures WaitOk(b, Remove(all, h))
  {
    hide NoDup, Remove, HasChild;
    RemoveFacts(all, h);
    var l := Remove(all, h);
    forall p: Tid | p in l && p < |b| && b[p].status.WAITING?
      ensures HasChild(b, l, b[p].pid, false) && (p != INIT ==> !HasChild(b, l, b[p].pid, true))
    {
      assert p in all && a[p].status.WAITING?;
      ReapChild(a, b, all, h, a[p].pid);
    }
  }

  lemma {:induction false} ReapChild(a: seq<Task>, b: seq<Task>, all: seq<Tid>, h: Tid, pid: nat)
    requires Buried(a, b, h) && NoDup(all) && h in all && a[h].ppid != pid
    ensures HasChild(a, all, pid, false) ==> HasChild(b, Remove(all, h), pid, false)
    ensures HasChild(b, Remove(all, h), pid, true) ==> HasChild(a, all, pid, true)
  {
    hide NoDup, Remove;
    RemoveFacts(all, h);
    var l := Remove(all, h);
    if HasChild(a, all, pid, false) {
      var d: Tid :| d in all && IsChild(a, d, pid, false);
      assert d in l && IsChild(b, d, pid, false);
    }
    if HasChild(b, l, pid, true) {
      var d: Tid :| d in l && IsChild(b, d, pid, true);
      assert d in all && IsChild(a, d, pid, true);
    }
  }

  lemma {:induction false} ReapRoots(a: seq<Task>, b: seq<Task>, all: seq<Tid>, h: Tid)
    requires Roots(a, all) && Buried(a, b, h) && NoDup(all) && h in all && h != IDLE
    ensures Roots(b, Remove(all, h))
  {
    hide NoDup, Remove;
    RemoveFacts(all, h);
  }

  /** The parent that reaps is running, hence not waiting, and it is the only one. */
  lemma {:induction false} ReaperRuns(k: State, h: Tid)
    requires KernelInv(k) && h < |k.s.tasks| && k.s.cur < |k.s.tasks| && k.s.tasks[h].ppid == k.s.tasks[k.s.cur].pid
    ensures forall p: Tid :: p in k.all && p < |k.s.tasks| && k.s.tasks[p].pid == k.s.tasks[h].ppid ==>
              !k.s.tasks[p].status.WAITING?
  {
    CurParent(k);
    hide NoDup, Tree, WaitOk, SemInv, Inv, Members, HasPid;
    assert Pids(k.s.tasks, k.all, k.used);
  }

  lemma {:induction false} ReapInv(k: State, h: Tid)
    requires KernelInv(k) && h in k.all && k.s.cur < |k.s.tasks| && IsChild(k.s.tasks, h, k.s.tasks[k.s.cur].pid, true)
    ensures KernelInv(Reap(k, h))
  {
    ReaperRuns(k, h);
    Bury(k.s, h);
    ReapSched(k.s, h);
    assert NoDup(k.all) && h != IDLE by { IdleRuns(k); MembersNoDup(k.s.tasks, k.all, k.reaped); }
    hide NoDup, Remove, Inv, Pre, Tree, WaitOk, SemInv, Members, Pids, Roots, SetStatus;
    var a, b := k.s.tasks, SetStatus(k.s, h, DIED, false).tasks;
    assert Buried(a, b, h);
    SemFrame(a, b, k.sems);
    ReapMembers(a, b, k.all, k.reaped, h);
    ReapPids(a, b, k.all, k.used, h);
    ReapTree(a, b, k.all, h);
    ReapWait(a, b, k.all, h);
    ReapRoots(a, b, k.all, h);
  }

  lemma {:induction false} MembersNoDup(tasks: seq<Task>, all: seq<Tid>, reaped: seq<Tid>)
    requires Members(tasks, all, reaped)
    ensures NoDup(all)
  {
  }

  lemma {:induction false} IdleRuns(k: State)
    requires KernelInv(k)
    ensures |k.s.tasks| > 1 && k.s.tasks[IDLE].status.Runnable() && !k.s.tasks[INIT].status.HANGING?
  {
    hide NoDup, Tree, WaitOk, SemInv, Members, Pids;
  }

  lemma {:induction false} ReapSched(s: Sched, h: Tid)
    requires h < |s.tasks| && s.tasks[h].status.HANGING?
    ensures Buried(s.tasks, SetStatus(s, h, DIED, false).tasks, h)
    ensures SameBlocked(s.tasks, SetStatus(s, h, DIED, false).tasks)
  {
  }

  /** What blocking in process_wait does to the processes. */
  lemma {:induction false} WaitProc(a: seq<Task>, b: seq<Task>, all: seq<Tid>, used: set<nat>, reaped: seq<Tid>, c: Tid)
    requires ProcInv(a, all, used, reaped) && c < |a| == |b| && a[c].status.Runnable() &&
             b == a[c := a[c].(status := WAITING)]
    requires HasChild(a, all, a[c].pid, false) && !HasChild(a, all, a[c].pid, true)
    ensures ProcInv(b, all, used, reaped)
  {
    hide NoDup, Tree, WaitOk, Pids, HasChild;
    TreeFrame(a, b, all);
    PidsFrame(a, b, all, used);
    WaitWait(a, b, all, c);
  }

  lemma {:induction false} WaitWait(a: seq<Task>, b: seq<Task>, all: seq<Tid>, c: Tid)
    requires WaitOk(a, all) && c < |a| == |b| && a[c].status.Runnable() && b == a[c := a[c].(status := WAITING)]
    requires HasChild(a, all, a[c].pid, false) && !HasChild(a, all, a[c].pid, true)
    ensures WaitOk(b, all)
  {
    hide HasChild;
    forall p: Tid | p in all && p < |b| && b[p].status.WAITING?
      ensures HasChild(b, all, b[p].pid, false) && (p != INIT ==> !HasChild(b, all, b[p].pid, true))
    {
      WaitChild(a, b, all, c, a[p].pid);
    }
  }

  lemma {:induction false} WaitChild(a: seq<Task>, b: seq<Task>, all: seq<Tid>, c: Tid, pid: nat)
    requires c < |a| == |b| && a[c].status.Runnable() && b == a[c := a[c].(status := WAITING)]
    ensures HasChild(a, all, pid, false) ==> HasChild(b, all, pid, false)
    ensures HasChild(b, all, pid, true) ==> HasChild(a, all, pid, true)
  {
    if HasChild(a, all, pid, false) {
      var d: Tid :| d in all && IsChild(a, d, pid, false);
      assert IsChild(b, d, pid, false);
    }
    if HasChild(b, all, pid, true) {
      var d: Tid :| d in all && IsChild(b, d, pid, true);
      assert IsChild(a, d, pid, true);
    }
  }

  lemma {:induction false} StepWait(k: State)
    requires KernelInv(k) && Enabled(k, Wait)
    ensures KernelInv(Step(k, Wait))
  {
    hide KernelInv, Leave, Reap, Child, IsChild;
    CurParent(k);
    var pid := k.s.tasks[k.s.cur].pid;
    var h := Child(k.s.tasks, k.all, pid, true);
    if h.Some? {
      ReapInv(k, h.value);
    } else if Child(k.s.tasks, k.all, pid, false).Some? {
      WaitBlocks(k);
    }
  }

  lemma {:induction false} WaitBlocks(k: State)
    requires KernelInv(k) && k.s.cur < |k.s.tasks| && k.s.cur != IDLE
    requires HasChild(k.s.tasks, k.all, k.s.tasks[k.s.cur].pid, false) &&
             !HasChild(k.s.tasks, k.all, k.s.tasks[k.s.cur].pid, true)
    ensures KernelInv(k.(s := Leave(k.s, WAITING)))
  {
    CurFacts(k.s);
    GiveUp(k.s, WAITING);
    hide Schedule, Pre, Inv, SemInv, ProcInv, HasChild, Remove;
    var s := SetStatus(k.s, k.s.cur, WAITING, false);
    SemFrame(k.s.tasks, s.tasks, k.sems);
    WaitProc(k.s.tasks, s.tasks, k.all, k.used, k.reaped, k.s.cur);
    AfterSchedule(k.(s := s));
  }

  // ------------------------------------------------------------------ exit

  /** What process_exit of `c` does to the tasks, up to its schedule(): the children go to init,
      a waiting parent becomes ready, and `c` hangs. */
  ghost predicate Exited(a: seq<Task>, b: seq<Task>, all: seq<Tid>, c: Tid) {
    && c < |a| == |b|
    && forall t :: 0 <= t < |a| ==>
         && b[t].pid == a[t].pid
         && b[t].ppid == (if t in all && a[t].ppid == a[c].pid then INIT_PID else a[t].ppid)
         && b[t].status == (if t == c then HANGING
                            else if t in all && a[t].pid == a[c].ppid && a[t].status.WAITING? then READY
                            else a[t].status)
  }

  lemma {:induction false} CurKin(k: State)
    requires KernelInv(k) && k.s.cur != IDLE && k.s.cur < |k.s.tasks|
    ensures k.s.tasks[k.s.cur].ppid != k.s.tasks[k.s.cur].pid
    ensures HasParent(k.s.tasks, k.all, k.s.tasks[k.s.cur].ppid)
  {
    hide NoDup, HasParent, SemInv, WaitOk, Pids, Placed;
    CurParent(k);
  }

  lemma {:induction false} RechildSched(s: Sched, all: seq<Tid>, from: nat)
    requires Inv(s)
    ensures Inv(s.(tasks := Rechild(s.tasks, all, from)))
  {
    hide NoDup;
    var r := s.(tasks := Rechild(s.tasks, all, from));
    forall t | 0 <= t < |r.tasks| ensures Placed(r, t) {
      assert Placed(s, t);
    }
  }

  /** pid2task finds the parent that the pid belongs to. */
  lemma {:induction false} FindUnique(tasks: seq<Task>, all: seq<Tid>, used: set<nat>, p: Tid, pid: nat)
    requires Pids(tasks, all, used) && p in all && p < |tasks| && tasks[p].pid == pid
    ensures FindPid(tasks, all, pid) == Some(p)
  {
    hide FindPid, HasPid;
  }

  /** The parent of the exiting process is found: the source dereferences the result. */
  lemma {:induction false} ParentFound(k: State) returns (p: Tid)
    requires KernelInv(k) && k.s.cur != IDLE && k.s.cur < |k.s.tasks|
    ensures var a := Rechild(k.s.tasks, k.all, k.s.tasks[k.s.cur].pid);
            && Parent(k.s.tasks, k.all, p, k.s.tasks[k.s.cur].ppid) && p != k.s.cur
            && a[k.s.cur].ppid == k.s.tasks[k.s.cur].ppid && FindPid(a, k.all, a[k.s.cur].ppid) == Some(p)
  {
    hide FindPid, Inv, SemInv, Members, Tree, WaitOk, Pids;
    CurKin(k);
    var a := Rechild(k.s.tasks, k.all, k.s.tasks[k.s.cur].pid);
    p :| Parent(k.s.tasks, k.all, p, k.s.tasks[k.s.cur].ppid);
    PidsFrame(k.s.tasks, a, k.all, k.used);
    FindUnique(a, k.all, k.used, p, k.s.tasks[k.s.cur].ppid);
  }

  lemma {:induction false} PidUnique(tasks: seq<Task>, all: seq<Tid>, used: set<nat>, p: Tid)
    requires Pids(tasks, all, used) && p in all && p < |tasks|
    ensures forall t: Tid :: t in all && t < |tasks| && tasks[t].pid == tasks[p].pid ==> t == p
  {
    hide HasPid;
  }

  lemma {:induction false} ExitEffect(k: State)
    requires KernelInv(k) && k.s.cur != IDLE && k.s.cur < |k.s.tasks|
    ensures Pre(SetStatus(Orphan(k), k.s.cur, HANGING, false))
    ensures Exited(k.s.tasks, SetStatus(Orphan(k), k.s.cur, HANGING, false).tasks, k.all, k.s.cur)
  {
    hide FindPid, SemInv, Members, Tree, WaitOk, Pids, Roots, Inv, Pre, Remove;
    var p := ParentFound(k);
    PidUnique(k.s.tasks, k.all, k.used, p);
    RechildSched(k.s, k.all, k.s.tasks[k.s.cur].pid);
    var s := k.s.(tasks := Rechild(k.s.tasks, k.all, k.s.tasks[k.s.cur].pid));
    if s.tasks[p].status.WAITING? {
      MakeReady(s, p, false);
    }
    GiveUp(Orphan(k), HANGING);
  }

  lemma {:induction false} ExitSem(a: seq<Task>, b: seq<Task>, all: seq<Tid>, c: Tid)
    requires Exited(a, b, all, c) && a[c].status.Runnable()
    ensures SameBlocked(a, b)
  {
  }

  lemma {:induction false} ExitParent(a: seq<Task>, b: seq<Task>, all: seq<Tid>, c: Tid, pid: nat)
    requires Exited(a, b, all, c) && HasParent(a, all, pid) && pid != a[c].pid
    ensures HasParent(b, all, pid)
  {
    var p: Tid :| Parent(a, all, p, pid);
    assert Parent(b, all, p, pid);
  }

  lemma {:induction false} ExitTree(a: seq<Task>, b: seq<Task>, all: seq<Tid>, c: Tid)
    requires Exited(a, b, all, c) && Tree(a, all) && Roots(a, all) && c in all && c != INIT && a[c].pid != INIT_PID &&
             a[c].pid != 0
    requires forall t: Tid :: t in all && t < |a| && a[t].pid == INIT_PID ==> t == INIT
    ensures Tree(b, all)
  {
    hide HasParent;
    assert HasParent(a, all, INIT_PID) by { HasParentAt(a, all, INIT, INIT_PID); }
    ExitParent(a, b, all, c, INIT_PID);
    forall t: Tid | t in all && t < |b| && t != IDLE ensures b[t].ppid != b[t].pid && HasParent(b, all, b[t].ppid) {
      if a[t].ppid != a[c].pid {
        ExitParent(a, b, all, c, a[t].ppid);
      }
    }
  }

  lemma {:induction false} HasParentAt(a: seq<Task>, all: seq<Tid>, p: Tid, pid: nat)
    requires Parent(a, all, p, pid)
    ensures HasParent(a, all, pid)
  {
  }

  /** A process that still waits loses no child, and a child of it that hangs hung before. */
  lemma {:induction false} ExitChild(a: seq<Task>, b: seq<Task>, all: seq<Tid>, c: Tid, pid: nat)
    requires Exited(a, b, all, c) && pid != a[c].pid && pid != a[c].ppid
    ensures HasChild(a, all, pid, false) ==> HasChild(b, all, pid, false)
    ensures pid != INIT_PID && HasChild(b, all, pid, true) ==> HasChild(a, all, pid, true)
  {
    if HasChild(a, all, pid, false) {
      var d: Tid :| d in all && IsChild(a, d, pid, false);
      assert IsChild(b, d, pid, false);
    }
    if pid != INIT_PID && HasChild(b, all, pid, true) {
      var d: Tid :| d in all && IsChild(b, d, pid, true);
      assert IsChild(a, d, pid, true);
    }
  }

  lemma {:induction false} ExitWait(a: seq<Task>, b: seq<Task>, all: seq<Tid>, used: set<nat>, c: Tid)
    requires Exited(a, b, all, c) && WaitOk(a, all) && Pids(a, all, used) && Roots(a, all) && c in all
    ensures WaitOk(b, all)
  {
    hide HasChild, HasPid;
    forall p: Tid | p in all && p < |b| && b[p].status.WAITING?
      ensures HasChild(b, all, b[p].pid, false) && (p != INIT ==> !HasChild(b, all, b[p].pid, true))
    {
      assert p != c && a[p].status.WAITING? && a[p].pid != a[c].pid;
      assert a[p].pid == INIT_PID ==> p == INIT;
      ExitChild(a, b, all, c, a[p].pid);
    }
  }

  lemma {:induction false} ExitProc(a: seq<Task>, b: seq<Task>, all: seq<Tid>, used: set<nat>, reaped: seq<Tid>, c: Tid)
    requires ProcInv(a, all, used, reaped) && Exited(a, b, all, c) && c in all && c != IDLE && c != INIT &&
             a[c].status.Runnable()
    ensures ProcInv(b, all, used, reaped)
  {
    hide WaitOk, Tree, Pids, NoDup, Roots, Members;
    ExitRoots(a, b, all, used, c);
    ExitMembers(a, b, all, reaped, c);
    PidUnique(a, all, used, c);
    PidsFrame(a, b, all, used);
    ExitTree(a, b, all, c);
    ExitWait(a, b, all, used, c);
  }

  lemma {:induction false} ExitMembers(a: seq<Task>, b: seq<Task>, all: seq<Tid>, reaped: seq<Tid>, c: Tid)
    requires Members(a, all, reaped) && Exited(a, b, all, c) && a[c].status.Runnable()
    ensures Members(b, all, reaped)
  {
    hide NoDup;
  }

  lemma {:induction false} ExitRoots(a: seq<Task>, b: seq<Task>, all: seq<Tid>, used: set<nat>, c: Tid)
    requires Roots(a, all) && Exited(a, b, all, c) && c in all && c != IDLE && c != INIT && Pids(a, all, used)
    ensures Roots(b, all) && a[c].pid != 0 && a[c].pid != INIT_PID
    ensures forall t: Tid :: t in all && t < |a| && a[t].pid == INIT_PID ==> t == INIT
  {
    hide HasPid;
  }

  lemma {:induction false} StepExit(k: State)
    requires KernelInv(k) && Enabled(k, Exit)
    ensures KernelInv(Step(k, Exit))
  {
    hide Schedule, Pre, Inv, SemInv, ProcInv, SetStatus, Orphan, Exited, SameBlocked;
    CurParent(k);
    ExitEffect(k);
    var s := SetStatus(Orphan(k), k.s.cur, HANGING, false);
    ExitSem(k.s.tasks, s.tasks, k.all, k.s.cur);
    SemFrame(k.s.tasks, s.tasks, k.sems);
    ExitProc(k.s.tasks, s.tasks, k.all, k.used, k.reaped, k.s.cur);
    AfterSchedule(k.(s := s));
  }

  // ------------------------------------------------------------------ whole runs

  lemma {:induction false} StepInv(k: State, e: Event)
    requires KernelInv(k) && Enabled(k, e)
    ensures KernelInv(Step(k, e))
  {
    hide KernelInv;
    match e {
      case Tick => StepTick(k);
      case Yield => LeaveInv(k, READY);
      case Sleep(ticks) => StepSleep(k, ticks);
      case SemWait(i) => StepSemWait(k, i);
      case SemWakeup(i) => StepSemWakeup(k, i);
      case Fork => StepFork(k);
      case Wait => StepWait(k);
      case Exit => StepExit(k);
    }
  }

  /** Any sequence of events; one that cannot happen is skipped. */
  function Run(k: State, es: seq<Event>): (r: State)
    decreases |es|
  {
    if es == [] then k else Run(if Enabled(k, es[0]) then Step(k, es[0]) else k, es[1..])
  }

  lemma {:induction false} RunInv(k: State, es: seq<Event>)
    requires KernelInv(k)
    ensures KernelInv(Run(k, es))
    decreases |es|
  {
    hide KernelInv, Step;
    if es != [] {
      if Enabled(k, es[0]) {
        StepInv(k, es[0]);
        RunInv(Step(k, es[0]), es[1..]);
      } else {
        RunInv(k, es[1..]);
      }
    }
  }

  lemma {:induction false} BootInv(units: seq<nat>)
    ensures KernelInv(Boot(units))
  {
    BootSched(units);
    BootProc(units);
    var k := Boot(units);
    assert SemInv(k.s.tasks, k.sems);
  }

  lemma {:induction false} BootSched(units: seq<nat>)
    ensures Inv(Boot(units).s)
  {
    var s := Boot(units).s;
    assert s.ready[0] == INIT;
    forall t | 0 <= t < |s.tasks| ensures Placed(s, t) {
    }
  }

  lemma {:induction false} BootProc(units: seq<nat>)
    ensures var k := Boot(units); ProcInv(k.s.tasks, k.all, k.used, k.reaped)
  {
    var k := Boot(units);
    var tasks, all := k.s.tasks, k.all;
    assert all[0] == IDLE && all[1] == INIT;
    assert tasks[IDLE].pid == 0 && tasks[INIT].pid == INIT_PID;
    assert HasPid(tasks, all, 0) && HasPid(tasks, all, INIT_PID);
    assert Parent(tasks, all, IDLE, 0);
  }

  function Reached(units: seq<nat>, es: seq<Event>): (r: State) {
    Run(Boot(units), es)
  }

  lemma {:induction false} ReachedInv(units: seq<nat>, es: seq<Event>)
    ensures KernelInv(Reached(units, es))
  {
    hide KernelInv, Run, Boot;
    BootInv(units);
    RunInv(Boot(units), es);
  }

  /** Scheduler safety over every run: no list holds a task twice, no task is in two lists, the
      running task is in none and can run, only runnable tasks are ready, and the links of a task
      are set exactly while it is in a list. */
  lemma {:induction false} SchedulerSafe(units: seq<nat>, es: seq<Event>)
    ensures var s := Reached(units, es).s;
            && NoDup(s.ready) && NoDup(s.sleep) && (forall t: Tid :: t in s.ready ==> t !in s.sleep)
            && s.cur < |s.tasks| && s.cur !in s.ready && s.cur !in s.sleep && s.tasks[s.cur].status.Runnable()
            && (forall t: Tid :: t in s.ready ==> t < |s.tasks| && s.tasks[t].status.Runnable())
            && (forall t :: 0 <= t < |s.tasks| && s.tasks[t].status.Runnable() ==> t == s.cur || t in s.ready)
            && (forall t :: 0 <= t < |s.tasks| ==> (s.tasks[t].status.SLEEP? <==> t in s.sleep))
            && (forall t :: 0 <= t < |s.tasks| ==> (s.tasks[t].linked <==> t in s.ready || t in s.sleep))
  {
    hide Reached, NoDup, SemInv, ProcInv;
    ReachedInv(units, es);
    var s := Reached(units, es).s;
    forall t | 0 <= t < |s.tasks|
      ensures s.tasks[t].status.Runnable() ==> t == s.cur || t in s.ready
      ensures s.tasks[t].status.SLEEP? ==> t in s.sleep
      ensures s.tasks[t].linked <==> t in s.ready || t in s.sleep
    {
      assert Placed(s, t);
    }
  }

  /** Semaphores over every run: a positive count means no waiters, and the tasks blocked are
      exactly the waiters, each at one semaphore and there once. */
  lemma {:induction false} SemaphoresSafe(units: seq<nat>, es: seq<Event>)
    ensures var k := Reached(units, es);
            && (forall i :: 0 <= i < |k.sems| ==>
                  (k.sems[i].count > 0 ==> k.sems[i].waiters == []) && NoDup(k.sems[i].waiters))
            && (forall t :: 0 <= t < |k.s.tasks| ==>
                  (k.s.tasks[t].status.BLOCKED? <==> exists i :: 0 <= i < |k.sems| && t in k.sems[i].waiters))
            && (forall i, j, t: Tid ::
                  0 <= i < |k.sems| && 0 <= j < |k.sems| && t in k.sems[i].waiters && t in k.sems[j].waiters ==> i == j)
  {
    hide Reached, NoDup, Inv, ProcInv;
    ReachedInv(units, es);
    var k := Reached(units, es);
    forall i | 0 <= i < |k.sems| ensures SemOk(k.s.tasks, k.sems[i]) {
    }
    forall t | 0 <= t < |k.s.tasks| && k.s.tasks[t].status.BLOCKED?
      ensures exists i :: 0 <= i < |k.sems| && t in k.sems[i].waiters
    {
      assert InSome(k.sems, t);
    }
  }

  /** No lost wakeup between exit and wait, over every run: a process blocked in process_wait has
      a child, and none that hangs unless it is init; every process but the idle thread has a
      parent that has not exited; a pid is taken exactly while its process is in all_tasks; no
      process is reaped twice, and the reaped ones are exactly those that are gone. */
  lemma {:induction false} ProcessesSafe(units: seq<nat>, es: seq<Event>)
    ensures var k := Reached(units, es); var tasks := k.s.tasks;
            && (forall p: Tid :: p in k.all ==> p < |tasks|)
            && (forall p: Tid :: p in k.all && tasks[p].status.WAITING? ==>
                  HasChild(tasks, k.all, tasks[p].pid, false) &&
                  (p != INIT ==> !HasChild(tasks, k.all, tasks[p].pid, true)))
            && (forall t: Tid :: t in k.all && t != IDLE ==> HasParent(tasks, k.all, tasks[t].ppid))
            && (forall pid: nat :: pid in k.used <==> HasPid(tasks, k.all, pid))
            && (forall a: Tid, b: Tid :: a in k.all && b in k.all && tasks[a].pid == tasks[b].pid ==> a == b)
            && NoDup(k.reaped) && (forall t :: 0 <= t < |tasks| ==> (t in k.reaped <==> t !in k.all))
  {
    hide Reached, NoDup, Inv, SemInv, HasChild, HasParent, HasPid;
    ReachedInv(units, es);
    var k := Reached(units, es);
    forall pid: nat | HasPid(k.s.tasks, k.all, pid) ensures pid in k.used {
      PidTaken(k.s.tasks, k.all, k.used, pid);
    }
  }

  lemma {:induction false} PidTaken(tasks: seq<Task>, all: seq<Tid>, used: set<nat>, pid: nat)
    requires Pids(tasks, all, used) && HasPid(tasks, all, pid)
    ensures pid in used
  {
  }

  // ------------------------------------------------------------------ which child is reaped

  /** thread_child finds the first one in all_tasks. */
  lemma {:induction false} ChildFirst(tasks: seq<Task>, all: seq<Tid>, ppid: nat, hanging: bool, i: nat)
    requires i < |all| && IsChild(tasks, all[i], ppid, hanging)
    ensures Child(tasks, all, ppid, hanging).Some? && Child(tasks, all, ppid, hanging).value in all[..i + 1]
  {
    if !IsChild(tasks, all[0], ppid, hanging) {
      ChildFirst(tasks, all[1..], ppid, hanging, i - 1);
      assert all[..i + 1] == [all[0]] + all[1..][..i];
    } else {
      assert all[..i + 1][0] == all[0];
    }
  }

  /** process_wait of a process without a child that hangs: it waits if and only if it has a child,
      and otherwise returns at once. */
  lemma {:induction false} WaitsIff(k: State)
    requires KernelInv(k) && Enabled(k, Wait) && !HasChild(k.s.tasks, k.all, k.s.tasks[k.s.cur].pid, true)
    ensures var r, some := Step(k, Wait), HasChild(k.s.tasks, k.all, k.s.tasks[k.s.cur].pid, false);
            && r.reaped == k.reaped && r.all == k.all && |r.s.tasks| == |k.s.tasks|
            && (r.s.tasks[k.s.cur].status.WAITING? <==> some) && (!some ==> r == k)
  {
    hide Schedule, Pre, Inv, SemInv, ProcInv, Child, Remove;
    CurParent(k);
    CurFacts(k.s);
    GiveUp(k.s, WAITING);
    var s := SetStatus(k.s, k.s.cur, WAITING, false);
    ScheduleKeeps(s);
    assert SameProc(s.tasks[k.s.cur], Schedule(s).tasks[k.s.cur]);
  }

  /** all_tasks is in the order of creation. */
  ghost predicate Sorted(all: seq<Tid>) {
    forall i, j :: 0 <= i < j < |all| ==> all[i] < all[j]
  }

  lemma {:induction false} RemoveSorted(all: seq<Tid>, t: Tid)
    requires Sorted(all)
    ensures Sorted(Remove(all, t)) && forall x: Tid :: x in Remove(all, t) ==> x in all
  {
    if all != [] && all[0] != t {
      RemoveSorted(all[1..], t);
      var r := Remove(all[1..], t);
      forall i | 0 <= i < |r| ensures all[0] < r[i] {
        assert r[i] in all[1..];
      }
    }
  }

  lemma {:induction false} StepSorted(k: State, e: Event)
    requires KernelInv(k) && Enabled(k, e) && Sorted(k.all)
    ensures Sorted(Step(k, e).all)
  {
    hide SetStatus, Leave, SemInv, Inv, Pids, Roots, Tree, WaitOk, NoDup, Child, FreePid, Orphan, Schedule;
    forall i | 0 <= i < |k.all| ensures k.all[i] < |k.s.tasks| {
      assert k.all[i] in k.all;
    }
    if e.Wait? {
      var h := Child(k.s.tasks, k.all, k.s.tasks[k.s.cur].pid, true);
      if h.Some? {
        RemoveSorted(k.all, h.value);
      }
    }
  }

  lemma {:induction false} RunSorted(k: State, es: seq<Event>)
    requires KernelInv(k) && Sorted(k.all)
    ensures Sorted(Run(k, es).all)
    decreases |es|
  {
    hide KernelInv, Step, Sorted;
    if es != [] {
      if Enabled(k, es[0]) {
        StepInv(k, es[0]);
        StepSorted(k, es[0]);
        RunSorted(Step(k, es[0]), es[1..]);
      } else {
        RunSorted(k, es[1..]);
      }
    }
  }

  /** Over every run, all_tasks lists the processes in the order of their creation. */
  lemma {:induction false} CreationOrder(units: seq<nat>, es: seq<Event>)
    ensures var all := Reached(units, es).all; forall i, j :: 0 <= i < j < |all| ==> all[i] < all[j]
  {
    hide Run, KernelInv;
    BootInv(units);
    RunSorted(Boot(units), es);
  }

  /** process_wait reaps if and only if a child hangs, and then the one of those that stands first
      in all_tasks. */
  lemma {:induction false} ReapsFirst(k: State, i: nat)
    requires KernelInv(k) && Enabled(k, Wait) && i < |k.all|
    requires IsChild(k.s.tasks, k.all[i], k.s.tasks[k.s.cur].pid, true)
    ensures var r := Step(k, Wait).reaped;
            |r| == |k.reaped| + 1 && r[..|k.reaped|] == k.reaped && r[|k.reaped|] in k.all[..i + 1]
    ensures var h := Step(k, Wait).reaped[|k.reaped|];
            h in k.all && IsChild(k.s.tasks, h, k.s.tasks[k.s.cur].pid, true) && h !in Step(k, Wait).all
  {
    hide SetStatus, Leave, SemInv, Inv, Pids, Roots, Tree, WaitOk;
    ChildFirst(k.s.tasks, k.all, k.s.tasks[k.s.cur].pid, true, i);
    assert NoDup(k.all) by { MembersNoDup(k.s.tasks, k.all, k.reaped); }
    var h := Child(k.s.tasks, k.all, k.s.tasks[k.s.cur].pid, true).value;
    hide NoDup, Remove, Child;
    RemoveFacts(k.all, h);
  }

  // ------------------------------------------------------------------ semaphores in arrival order

  /** The calls that a run makes on semaphore `i`. */
  function SemCalls(k: State, es: seq<Event>, i: nat): (r: seq<Call>)
    decreases |es|
  {
    if es == [] then []
    else if !Enabled(k, es[0]) then SemCalls(k, es[1..], i)
    else CallsOf(k, es[0], i) + SemCalls(Step(k, es[0]), es[1..], i)
  }

  /** The calls that one step makes on semaphore `i`. */
  function CallsOf(k: State, e: Event, i: nat): (r: seq<Call>) {
    if e == SemWait(i) then [WaitBy(k.s.cur)] else if e == SemWakeup(i) then [Give] else []
  }

  lemma {:induction false} StepSems(k: State, e: Event, i: nat, rest: seq<Call>)
    requires Enabled(k, e) && i < |k.sems|
    ensures |Step(k, e).sems| == |k.sems| &&
            After(k.sems[i], CallsOf(k, e, i) + rest) == After(Step(k, e).sems[i], rest)
  {
    hide Leave, SetStatus, Schedule, Orphan, Child, FreePid;
    if CallsOf(k, e, i) == [] {
      assert [] + rest == rest;
    } else {
      assert (CallsOf(k, e, i) + rest)[1..] == rest;
    }
  }

  lemma {:induction false} RunSems(k: State, es: seq<Event>, i: nat)
    requires i < |k.sems|
    ensures |Run(k, es).sems| == |k.sems| && Run(k, es).sems[i] == After(k.sems[i], SemCalls(k, es, i))
    decreases |es|
  {
    hide Step, After;
    if es == [] {
      AfterNone(k.sems[i]);
    } else if Enabled(k, es[0]) {
      var n := Step(k, es[0]);
      StepSems(k, es[0], i, SemCalls(n, es[1..], i));
      RunSems(n, es[1..], i);
    } else {
      RunSems(k, es[1..], i);
    }
  }

  lemma {:induction false} AfterNone(sem: Seg)
    ensures After(sem, []) == sem
  {
  }

  /** Over every run, the waiters of a semaphore are released in the order of their arrival, and
      initial units plus wakeups equal completed waits plus the count. */
  lemma {:induction false} SemaphoreHistory(units: seq<nat>, es: seq<Event>, i: nat)
    requires i < |units|
    ensures var calls := SemCalls(Boot(units), es, i); var sem := Seg(units[i], []); var k := Reached(units, es);
            && |k.sems| == |units|
            && QueuedUp(sem, calls) == Released(sem, calls) + k.sems[i].waiters
            && units[i] + (|calls| - WaitCount(calls)) ==
               (WaitCount(calls) - |QueuedUp(sem, calls)|) + |Released(sem, calls)| + k.sems[i].count
  {
    hide Run, SemCalls, After, QueuedUp, Released, WaitCount;
    var calls, sem := SemCalls(Boot(units), es, i), Seg(units[i], []);
    RunSems(Boot(units), es, i);
    SegmentHistory(sem, calls);
    assert [] + QueuedUp(sem, calls) == QueuedUp(sem, calls);
  }
}
