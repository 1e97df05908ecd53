/** Orphans that init is not told about: process_exit of kernel/thread/process.c hands the children
    of the exiting process to init without waking it. */
module Orphans {
  import opened Lists
  import opened Segment
  import opened Scheduler
  import opened Kernel

  /** Init waits beside a hanging child. */
  ghost predicate Missed(k: State) {
    && |k.s.tasks| > INIT && k.s.tasks[INIT].status.WAITING?
    && HasChild(k.s.tasks, k.all, INIT_PID, true)
  }

  /** A process that exits hands its hanging children to init without waking init. So after an
      exit init waits beside a hanging child exactly if it did before, or the exiting process had
      one, and the exiting process is not a child of init. */
  lemma {:induction false} MissedIff(k: State)
    requires KernelInv(k) && Enabled(k, Exit)
    ensures Missed(Step(k, Exit)) <==>
            && |k.s.tasks| > INIT && k.s.tasks[INIT].status.WAITING? && k.s.tasks[k.s.cur].ppid != INIT_PID
            && (HasChild(k.s.tasks, k.all, INIT_PID, true) || HasChild(k.s.tasks, k.all, k.s.tasks[k.s.cur].pid, true))
  {
    hide Schedule, Pre, Inv, SemInv, SetStatus, Orphan, HasChild, Members, Pids, Tree, WaitOk;
    CurParent(k);
    CurKin(k);
    ExitEffect(k);
    var s := SetStatus(Orphan(k), k.s.cur, HANGING, false);
    ScheduleKeeps(s);
    var a, b, d := k.s.tasks, s.tasks, Schedule(s).tasks;
    assert SameProc(b[INIT], d[INIT]);
    ChildFrame(b, d, k.all, INIT_PID, true);
    if a[k.s.cur].ppid != INIT_PID {
      ExitOrphans(a, b, k.all, k.s.cur);
    }
  }

  lemma {:induction false} ExitOrphans(a: seq<Task>, b: seq<Task>, all: seq<Tid>, c: Tid)
    requires Exited(a, b, all, c) && a[c].ppid != INIT_PID && a[c].ppid != a[c].pid && !a[c].status.HANGING?
    ensures HasChild(b, all, INIT_PID, true) <==> HasChild(a, all, INIT_PID, true) || HasChild(a, all, a[c].pid, true)
  {
    if HasChild(b, all, INIT_PID, true) {
      var d: Tid :| d in all && IsChild(b, d, INIT_PID, true);
      assert IsChild(a, d, INIT_PID, true) || IsChild(a, d, a[c].pid, true);
    }
    if HasChild(a, all, INIT_PID, true) {
      var d: Tid :| d in all && IsChild(a, d, INIT_PID, true);
      assert IsChild(b, d, INIT_PID, true);
    }
    if HasChild(a, all, a[c].pid, true) {
      var d: Tid :| d in all && IsChild(a, d, a[c].pid, true);
      assert IsChild(b, d, INIT_PID, true);
    }
  }

  // ------------------------------------------------------------------ every other step

  /** Nothing that matters to `Missed` changes. */
  lemma {:induction false} MissedFrame(a: State, b: State)
    requires SameProcs(a.s.tasks, b.s.tasks) && a.all == b.all
    ensures Missed(a) <==> Missed(b)
  {
    hide HasChild;
    ChildFrame(a.s.tasks, b.s.tasks, a.all, INIT_PID, true);
    if |a.s.tasks| > INIT {
      assert SameProc(a.s.tasks[INIT], b.s.tasks[INIT]);
    }
  }

  lemma {:induction false} SameTwice(a: seq<Task>, b: seq<Task>, c: seq<Task>)
    requires SameProcs(a, b) && SameProcs(b, c)
    ensures SameProcs(a, c)
  {
  }

  lemma {:induction false} LeavesAlone(s: Sched, status: Status)
    requires Inv(s) && (status.READY? || status.SLEEP? || status.BLOCKED?) && (status.READY? || s.cur != IDLE)
    ensures s.cur < |s.tasks| && SameProcs(s.tasks, Leave(s, status).tasks)
  {
    hide Schedule, Pre, SameProcs, SetStatus, Inv;
    CurFacts(s);
    var r := SetStatus(s, s.cur, status, false);
    GiveUp(s, status);
    LeaveKeeps(s, status);
    ScheduleKeeps(r);
    SameTwice(s.tasks, r.tasks, Schedule(r).tasks);
  }

  lemma {:induction false} SleepMisses(k: State, ticks: nat)
    requires KernelInv(k) && Enabled(k, Sleep(ticks))
    ensures Missed(Step(k, Sleep(ticks))) <==> Missed(k)
  {
    hide Schedule, Leave, SemInv, ProcInv, Missed, Inv;
    var s := Slumber(k.s, ticks);
    SlumberSched(k.s, ticks);
    LeavesAlone(s, SLEEP);
    SameTwice(k.s.tasks, s.tasks, Leave(s, SLEEP).tasks);
    MissedFrame(k, Step(k, Sleep(ticks)));
  }

  lemma {:induction false} WakeupMisses(k: State, i: nat)
    requires KernelInv(k) && Enabled(k, SemWakeup(i))
    ensures Missed(Step(k, SemWakeup(i))) <==> Missed(k)
  {
    hide Pre, Inv, ProcInv, NoDup, Remove, Missed;
    if k.sems[i].waiters != [] {
      assert SemOk(k.s.tasks, k.sems[i]) && k.sems[i].waiters[0] in k.sems[i].waiters;
    }
    MissedFrame(k, Step(k, SemWakeup(i)));
  }

  lemma {:induction false} SemWaitMisses(k: State, i: nat)
    requires KernelInv(k) && Enabled(k, SemWait(i))
    ensures Missed(Step(k, SemWait(i))) <==> Missed(k)
  {
    hide Leave, Inv, SemInv, ProcInv, Missed;
    LeavesAlone(k.s, BLOCKED);
    MissedFrame(k, Step(k, SemWait(i)));
  }

  lemma {:induction false} TickMisses(k: State)
    requires KernelInv(k)
    ensures Missed(Step(k, Tick)) <==> Missed(k)
  {
    hide Schedule, SemInv, ProcInv, Missed;
    ScheduleKeeps(k.s);
    MissedFrame(k, Step(k, Tick));
  }

  lemma {:induction false} YieldMisses(k: State)
    requires KernelInv(k) && Enabled(k, Yield)
    ensures Missed(Step(k, Yield)) <==> Missed(k)
  {
    hide Leave, Inv, SemInv, ProcInv, Missed;
    LeavesAlone(k.s, READY);
    MissedFrame(k, Step(k, Yield));
  }

  /** A child just born does not hang. */
  lemma {:induction false} ForkMisses(k: State)
    requires KernelInv(k) && Enabled(k, Fork)
    ensures Missed(Step(k, Fork)) <==> Missed(k)
  {
    hide Inv, Pre, SemInv, NoDup, FreePid, Pids, Tree, WaitOk, HasChild;
    CurParent(k);
    var cur := k.s.tasks[k.s.cur];
    var c := cur.(pid := FreePid(k.used, 0), ppid := cur.pid, linked := true);
    MoreChildren(k.s.tasks, k.all, c, INIT_PID);
  }

  lemma {:induction false} MoreChildren(tasks: seq<Task>, all: seq<Tid>, c: Task, pid: nat)
    requires c.status.Runnable() && forall t: Tid :: t in all ==> t < |tasks|
    ensures HasChild(tasks + [c], all + [|tasks|], pid, true) <==> HasChild(tasks, all, pid, true)
  {
    ChildMore(tasks, all, c, pid);
    if HasChild(tasks, all, pid, true) {
      var d: Tid :| d in all && IsChild(tasks, d, pid, true);
      assert d in all + [|tasks|] && IsChild(tasks + [c], d, pid, true);
    }
  }

  /** A process that waits reaps its own child: while init waits, no child of init is reaped; and
      init itself goes to wait only when none of its children hangs. */
  lemma {:induction false} WaitMisses(k: State)
    requires KernelInv(k) && Enabled(k, Wait)
    ensures Missed(Step(k, Wait)) <==> Missed(k)
  {
    hide KernelInv, Leave, Reap, Child, Missed;
    CurParent(k);
    var pid := k.s.tasks[k.s.cur].pid;
    var h := Child(k.s.tasks, k.all, pid, true);
    if h.Some? {
      ReapMisses(k, h.value);
    } else if Child(k.s.tasks, k.all, pid, false).Some? {
      BlockMisses(k);
    }
  }

  lemma {:induction false} InitAlone(k: State)
    requires KernelInv(k)
    ensures |k.s.tasks| > INIT && k.s.tasks[INIT].pid == INIT_PID && NoDup(k.all)
    ensures k.s.cur < |k.s.tasks| && k.s.tasks[k.s.cur].status.Runnable()
    ensures k.s.tasks[k.s.cur].pid == INIT_PID ==> k.s.cur == INIT
  {
    CurParent(k);
    hide NoDup, Tree, WaitOk, SemInv, Inv, HasPid;
    MembersNoDup(k.s.tasks, k.all, k.reaped);
  }

  lemma {:induction false} ReapMisses(k: State, h: Tid)
    requires KernelInv(k) && h in k.all && k.s.cur < |k.s.tasks| && IsChild(k.s.tasks, h, k.s.tasks[k.s.cur].pid, true)
    ensures Missed(Reap(k, h)) <==> Missed(k)
  {
    hide KernelInv, NoDup, Remove, SetStatus, HasChild;
    InitAlone(k);
    ReapSched(k.s, h);
    var a, b := k.s.tasks, SetStatus(k.s, h, DIED, false).tasks;
    assert b[INIT].status.WAITING? <==> a[INIT].status.WAITING? by { IdleRuns(k); }
    if k.s.tasks[INIT].status.WAITING? {
      ReapChildIff(a, b, k.all, h, INIT_PID);
    }
  }

  lemma {:induction false} ReapChildIff(a: seq<Task>, b: seq<Task>, all: seq<Tid>, h: Tid, pid: nat)
    requires Buried(a, b, h) && NoDup(all) && h in all && a[h].ppid != pid
    ensures HasChild(b, Remove(all, h), pid, true) <==> HasChild(a, all, pid, true)
  {
    hide NoDup, Remove;
    RemoveFacts(all, h);
    ReapChild(a, b, all, h, pid);
    if HasChild(a, all, pid, true) {
      var d: Tid :| d in all && IsChild(a, d, pid, true);
      assert d in Remove(all, h) && IsChild(b, d, pid, true);
    }
  }

  lemma {:induction false} BlockMisses(k: State)
    requires KernelInv(k) && k.s.cur < |k.s.tasks| && k.s.cur != IDLE
    requires !HasChild(k.s.tasks, k.all, k.s.tasks[k.s.cur].pid, true)
    ensures Missed(k.(s := Leave(k.s, WAITING))) <==> Missed(k)
  {
    InitAlone(k);
    GiveUp(k.s, WAITING);
    hide KernelInv, Schedule, Pre, Inv, HasChild, Remove;
    var s := SetStatus(k.s, k.s.cur, WAITING, false);
    ScheduleKeeps(s);
    MissedFrame(k.(s := s), k.(s := Schedule(s)));
    BlockChild(k.s.tasks, s.tasks, k.all, k.s.cur, INIT_PID);
  }

  lemma {:induction false} BlockChild(a: seq<Task>, b: seq<Task>, all: seq<Tid>, c: Tid, pid: nat)
    requires c < |a| == |b| && a[c].status.Runnable() && b == a[c := a[c].(status := WAITING)]
    ensures HasChild(b, all, pid, true) <==> HasChild(a, all, pid, true)
  {
    WaitChild(a, b, all, c, pid);
    if HasChild(a, all, pid, true) {
      var d: Tid :| d in all && IsChild(a, d, pid, true);
      assert IsChild(b, d, pid, true);
    }
  }

  /** Only an exit changes whether init waits beside a hanging child. */
  lemma {:induction false} OnlyExit(k: State, e: Event)
    requires KernelInv(k) && Enabled(k, e) && !e.Exit?
    ensures Missed(Step(k, e)) <==> Missed(k)
  {
    hide KernelInv, Missed, Step;
    match e {
      case Tick => TickMisses(k);
      case Yield => YieldMisses(k);
      case Sleep(ticks) => SleepMisses(k, ticks);
      case SemWait(i) => SemWaitMisses(k, i);
      case SemWakeup(i) => WakeupMisses(k, i);
      case Fork => ForkMisses(k);
      case Wait => WaitMisses(k);
    }
  }

  // ------------------------------------------------------------------ over runs

  /** A process that is no child of init exits while init waits, and leaves a hanging child. */
  ghost predicate Hands(k: State, e: Event) {
    && e.Exit? && Enabled(k, e) && |k.s.tasks| > INIT && k.s.tasks[INIT].status.WAITING?
    && k.s.tasks[k.s.cur].ppid != INIT_PID && HasChild(k.s.tasks, k.all, k.s.tasks[k.s.cur].pid, true)
  }

  /** A child of init exits. */
  predicate Wakes(k: State, e: Event) {
    e.Exit? && Enabled(k, e) && k.s.tasks[k.s.cur].ppid == INIT_PID
  }

  lemma {:induction false} MissedStep(k: State, e: Event)
    requires KernelInv(k) && Enabled(k, e)
    ensures Missed(Step(k, e)) <==> Hands(k, e) || (Missed(k) && !Wakes(k, e))
  {
    hide KernelInv, Step, HasChild;
    if e.Exit? {
      MissedIff(k);
    } else {
      OnlyExit(k, e);
    }
  }

  lemma {:induction false} RunLast(k: State, es: seq<Event>, e: Event)
    ensures var r := Run(k, es); Run(k, es + [e]) == if Enabled(r, e) then Step(r, e) else r
    decreases |es|
  {
    hide Step, Enabled;
    if es == [] {
      assert [] + [e] == [e] && [e][1..] == [];
    } else {
      RunLast(if Enabled(k, es[0]) then Step(k, es[0]) else k, es[1..], e);
      assert (es + [e])[1..] == es[1..] + [e] && (es + [e])[0] == es[0];
    }
  }

  /** Event `i` of the run handed init a hanging child, and no child of init has exited since. */
  ghost predicate MissedAt(units: seq<nat>, es: seq<Event>, i: nat) {
    && i < |es| && Hands(Reached(units, es[..i]), es[i])
    && forall j :: i < j < |es| ==> !Wakes(Reached(units, es[..j]), es[j])
  }

  /** Over every run: init waits beside a hanging child if and only if some exit handed it one while
      it waited and no child of init has exited since. */
  lemma {:induction false} MissedSince(units: seq<nat>, es: seq<Event>)
    ensures Missed(Reached(units, es)) <==> exists i: nat :: MissedAt(units, es, i)
    decreases |es|
  {
    hide Reached, Hands, Wakes, Missed;
    if es == [] {
      NotAtBoot(units);
    } else {
      var n := |es| - 1;
      MissedSince(units, es[..n]);
      LastEvent(units, es);
      SinceLast(units, es);
    }
  }

  lemma {:induction false} NotAtBoot(units: seq<nat>)
    ensures !Missed(Reached(units, []))
  {
  }

  lemma {:induction false} LastEvent(units: seq<nat>, es: seq<Event>)
    requires es != []
    ensures var n := |es| - 1; var k := Reached(units, es[..n]);
            Missed(Reached(units, es)) <==> Hands(k, es[n]) || (Missed(k) && !Wakes(k, es[n]))
  {
    hide Run, Boot, Step, KernelInv, Missed;
    var n := |es| - 1;
    assert es == es[..n] + [es[n]];
    RunLast(Boot(units), es[..n], es[n]);
    var k := Reached(units, es[..n]);
    ReachedInv(units, es[..n]);
    if Enabled(k, es[n]) {
      MissedStep(k, es[n]);
    }
  }

  lemma {:induction false} SinceLast(units: seq<nat>, es: seq<Event>)
    requires es != []
    ensures var n := |es| - 1; var k := Reached(units, es[..n]);
            (exists i: nat :: MissedAt(units, es, i)) <==>
            Hands(k, es[n]) || ((exists i: nat :: MissedAt(units, es[..n], i)) && !Wakes(k, es[n]))
  {
    hide Reached, Hands, Wakes;
    var n := |es| - 1;
    var k := Reached(units, es[..n]);
    assert forall j :: 0 <= j < n ==> es[..n][..j] == es[..j] && es[..n][j] == es[j];
    if Hands(k, es[n]) {
      assert MissedAt(units, es, n);
    }
    if !Wakes(k, es[n]) {
      forall i: nat | MissedAt(units, es[..n], i) ensures MissedAt(units, es, i) {
      }
    }
    forall i: nat | MissedAt(units, es, i) && i < n ensures MissedAt(units, es[..n], i) && !Wakes(k, es[n]) {
    }
  }
}
