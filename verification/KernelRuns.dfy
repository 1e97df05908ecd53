/** How single events lead from one state to the next, for runs that are written out. */
module KernelRuns {
  import opened Lists
  import opened Segment
  import opened Scheduler
  import opened Kernel

  /** The idle thread, and a process at the start of its turn. */
  function Idler(status: Status, linked: bool, ticks: nat): (r: Task) {
    Task(status, linked, 0, NO_PID, ticks, 1, 0)
  }

  function Proc(status: Status, linked: bool, pid: nat, ppid: nat): (r: Task) {
    Task(status, linked, pid, ppid, 31, 31, 0)
  }

  /** A state in which nobody sleeps and nobody was reaped. */
  function At(tasks: seq<Task>, ready: seq<Tid>, cur: Tid, sems: seq<Seg>): (r: State) {
    var all := seq(|tasks|, i => i);
    State(Sched(tasks, ready, [], cur), all, sems, set i: nat | i in all, [])
  }

  lemma {:induction false} NobodySleeps(s: Sched)
    requires s.sleep == []
    ensures WakeSleepers(s) == s
  {
    assert WakeSleepers(s).tasks == s.tasks;
  }

  /** The first ready task takes over from `s.cur`, whose new status is `status`. */
  ghost predicate Passed(s: Sched, r: Sched, status: Status)
    requires s.cur < |s.tasks| && s.ready != [] && s.ready[0] < |s.tasks|
  {
    var n, c := s.ready[0], s.tasks[s.cur];
    && r.tasks == s.tasks[s.cur := c.(status := status, linked := c.linked || status.READY?)]
                         [n := s.tasks[n].(status := RUNNING, linked := false, ticks := s.tasks[n].priority)]
    && r.ready == (if status.READY? then s.ready[1..] + [s.cur] else s.ready[1..])
    && r.sleep == [] && r.cur == n
  }

  /** Someone is ready to take over. */
  ghost predicate CanPass(s: Sched) {
    && s.sleep == [] && s.cur < |s.tasks| && s.cur !in s.ready && s.ready != [] && s.ready[0] < |s.tasks|
    && s.tasks[s.cur].status.Runnable()
  }

  lemma {:induction false} DispatchTo(s: Sched)
    requires s.cur < |s.tasks| && s.cur !in s.ready && s.ready != [] && s.ready[0] < |s.tasks|
    requires var st := s.tasks[s.cur].status; st.READY? || st.WAITING? || st.HANGING? || st.BLOCKED?
    ensures var n, c := s.ready[0], s.tasks[s.cur];
            && n != s.cur
            && Dispatch(s) == Sched(s.tasks[s.cur := c.(linked := c.linked || c.status.READY?)]
                        [n := s.tasks[n].(status := RUNNING, linked := false, ticks := s.tasks[n].priority)],
                 if c.status.READY? then s.ready[1..] + [s.cur] else s.ready[1..], s.sleep, n)
  {
    var n, c := s.ready[0], s.tasks[s.cur];
    assert n in s.ready;
    assert Dispatch(s).tasks == s.tasks[s.cur := c.(linked := c.linked || c.status.READY?)]
                        [n := s.tasks[n].(status := RUNNING, linked := false, ticks := s.tasks[n].priority)];
  }

  lemma {:induction false} LeaveTo(s: Sched, status: Status)
    requires CanPass(s) && (status.READY? || status.WAITING? || status.HANGING? || status.BLOCKED?)
    ensures Passed(s, Leave(s, status), status)
  {
    hide Dispatch, WakeSleepers, Remove;
    RemoveAbsent(s.ready, s.cur);
    var m := SetStatus(s, s.cur, status, false);
    assert m == s.(tasks := s.tasks[s.cur := s.tasks[s.cur].(status := status)]);
    NobodySleeps(m);
    DispatchTo(m);
  }

  lemma {:induction false} LowestPid(used: set<nat>, n: nat)
    requires n < PIDS && n !in used && forall p :: 0 <= p < n ==> p in used
    ensures FreePid(used, 0) == n
  {
    hide FreePid;
  }

  lemma {:induction false} RunMore(k: State, e: Event, es: seq<Event>)
    requires Enabled(k, e)
    ensures Run(k, [e] + es) == Run(Step(k, e), es)
  {
    assert ([e] + es)[1..] == es;
  }

  lemma {:induction false} ForkTo(k: State, r: State, es: seq<Event>)
    requires 0 < k.s.cur < |k.s.tasks| < PIDS && k == At(k.s.tasks, k.s.ready, k.s.cur, k.sems)
    requires var s := k.s;
             r == At(s.tasks + [s.tasks[s.cur].(pid := |s.tasks|, ppid := s.tasks[s.cur].pid, linked := true)],
                     s.ready + [|s.tasks|], s.cur, k.sems)
    ensures Run(k, [Fork] + es) == Run(r, es)
  {
    hide Run, FreePid;
    var n := |k.s.tasks|;
    forall p | 0 <= p < n ensures p in k.used {
      assert k.all[p] == p;
    }
    LowestPid(k.used, n);
    assert r.all == k.all + [n] && r.used == k.used + {n};
    assert Step(k, Fork) == r;
    RunMore(k, Fork, es);
  }

  lemma {:induction false} YieldTo(k: State, r: State, es: seq<Event>)
    requires k.s.cur != IDLE && CanPass(k.s) && Passed(k.s, r.s, READY) && r == k.(s := r.s)
    ensures Run(k, [Yield] + es) == Run(r, es)
  {
    hide Run, Leave;
    RunMore(k, Yield, es);
    LeaveTo(k.s, READY);
  }

  /** A tick that the running task has time left for. */
  lemma {:induction false} TickDown(k: State, r: State, es: seq<Event>)
    requires k.s.sleep == [] && k.s.cur < |k.s.tasks| && (k.s.ready != [] ==> k.s.ready[0] < |k.s.tasks|)
    requires var c := k.s.tasks[k.s.cur];
             c.status.RUNNING? && c.ticks > 0 &&
             r == k.(s := k.s.(tasks := k.s.tasks[k.s.cur := c.(ticks := c.ticks - 1)]))
    ensures Run(k, [Tick] + es) == Run(r, es)
  {
    hide Run, WakeSleepers;
    RunMore(k, Tick, es);
    NobodySleeps(k.s);
  }

  /** A tick that ends the turn of the running task. */
  lemma {:induction false} TickTo(k: State, r: State, es: seq<Event>)
    requires CanPass(k.s) && k.s.tasks[k.s.cur].status.RUNNING? && k.s.tasks[k.s.cur].ticks == 0
    requires Passed(k.s, r.s, READY) && r == k.(s := r.s)
    ensures Run(k, [Tick] + es) == Run(r, es)
  {
    hide Run, WakeSleepers;
    RunMore(k, Tick, es);
    NobodySleeps(k.s);
    var s, n := k.s, k.s.ready[0];
    assert n in s.ready && Dispatch(s).tasks == r.s.tasks;
  }

  /** The idle thread halts for its whole turn of two ticks. */
  lemma {:induction false} IdleTo(k: State, r: State, es: seq<Event>)
    requires CanPass(k.s) && k.s.cur == IDLE && k.s.tasks[IDLE] == Idler(RUNNING, false, 1) && r == k.(s := r.s)
    requires Passed(k.s.(tasks := k.s.tasks[IDLE := Idler(RUNNING, false, 0)]), r.s, READY)
    ensures Run(k, [Tick] + ([Tick] + es)) == Run(r, es)
  {
    hide Run;
    var m := k.(s := k.s.(tasks := k.s.tasks[IDLE := Idler(RUNNING, false, 0)]));
    TickDown(k, m, [Tick] + es);
    TickTo(m, r, es);
  }

  /** Besides the scheduler only the waiters of one semaphore change. */
  ghost predicate OneSem(k: State, r: State, i: nat, waiters: seq<Tid>) {
    && r.all == k.all && r.used == k.used && r.reaped == k.reaped && i < |r.sems| == |k.sems|
    && r.sems[i].count == k.sems[i].count && r.sems[i].waiters == waiters
    && forall j :: 0 <= j < |k.sems| && j != i ==> r.sems[j] == k.sems[j]
  }

  /** segment_wait without a unit. */
  lemma {:induction false} BlockTo(k: State, r: State, i: nat, es: seq<Event>)
    requires CanPass(k.s) && k.s.cur != IDLE && i < |k.sems| && k.sems[i].count == 0 && Passed(k.s, r.s, BLOCKED)
    requires OneSem(k, r, i, k.sems[i].waiters + [k.s.cur])
    ensures Run(k, [SemWait(i)] + es) == Run(r, es)
  {
    hide Run, Leave;
    RunMore(k, SemWait(i), es);
    LeaveTo(k.s, BLOCKED);
    assert Step(k, SemWait(i)).sems == r.sems;
  }

  /** segment_wakeup with a waiter, which goes to the front of the ready list. */
  lemma {:induction false} WakeTo(k: State, r: State, i: nat, es: seq<Event>)
    requires k.s.cur < |k.s.tasks| && i < |k.sems| && k.sems[i].waiters != []
    requires var w := k.sems[i].waiters[0];
             && w < |k.s.tasks| && k.s.tasks[w].status.BLOCKED?
             && r.s.tasks == k.s.tasks[w := k.s.tasks[w].(status := READY, linked := true)]
             && r.s.ready == [w] + k.s.ready && r.s.sleep == k.s.sleep && r.s.cur == k.s.cur
             && OneSem(k, r, i, k.sems[i].waiters[1..])
    ensures Run(k, [SemWakeup(i)] + es) == Run(r, es)
  {
    hide Run;
    RunMore(k, SemWakeup(i), es);
    assert Step(k, SemWakeup(i)).sems == r.sems;
  }

  /** One round of process_wait that finds children but none that hangs. */
  lemma {:induction false} WaitTo(k: State, r: State, c: Tid, es: seq<Event>)
    requires CanPass(k.s) && Passed(k.s, r.s, WAITING) && r == k.(s := r.s) && k.s.cur != IDLE
    requires c in k.all && IsChild(k.s.tasks, c, k.s.tasks[k.s.cur].pid, false)
    requires forall t: Tid :: t in k.all && t < |k.s.tasks| ==> !k.s.tasks[t].status.HANGING?
    ensures Run(k, [Wait] + es) == Run(r, es)
  {
    hide Run, Leave, Child;
    RunMore(k, Wait, es);
    LeaveTo(k.s, WAITING);
  }

  lemma {:induction false} RunNone(k: State)
    ensures Run(k, []) == k
  {
  }

  lemma {:induction false} BootAt(units: seq<nat>)
    ensures Boot(units) == At([Idler(RUNNING, false, 1), Proc(READY, true, 1, 0)], [1], 0, Boot(units).sems)
  {
    assert seq(2, i => i) == [0, 1];
  }
}
