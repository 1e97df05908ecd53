/** A run in which init waits beside a hanging child that it was given and not told about. */
module KernelMiss {
  import opened Lists
  import opened Segment
  import opened Scheduler
  import opened Kernel
  import opened Orphans
  import opened KernelRuns

  const S1 := At([Idler(READY, true, 0), Proc(RUNNING, false, 1, 0)], [0], 1, [])
  const S2 := At([Idler(READY, true, 0), Proc(RUNNING, false, 1, 0), Proc(RUNNING, true, 2, 1)], [0, 2], 1, [])
  const S3 := At([Idler(RUNNING, false, 1), Proc(WAITING, false, 1, 0), Proc(RUNNING, true, 2, 1)], [2], 0, [])
  const S4 := At([Idler(READY, true, 0), Proc(WAITING, false, 1, 0), Proc(RUNNING, false, 2, 1)], [0], 2, [])
  const S5 := At([Idler(READY, true, 0), Proc(WAITING, false, 1, 0), Proc(RUNNING, false, 2, 1),
                  Proc(RUNNING, true, 3, 2)],
                 [0, 3], 2, [])
  const S6 := At([Idler(RUNNING, false, 1), Proc(WAITING, false, 1, 0), Proc(READY, true, 2, 1),
                  Proc(RUNNING, true, 3, 2)],
                 [3, 2], 0, [])
  const S7 := At([Idler(READY, true, 0), Proc(WAITING, false, 1, 0), Proc(READY, true, 2, 1),
                  Proc(RUNNING, false, 3, 2)],
                 [2, 0], 3, [])
  const S8 := At([Idler(READY, true, 0), Proc(WAITING, false, 1, 0), Proc(READY, true, 2, 1),
                  Proc(RUNNING, false, 3, 2), Proc(RUNNING, true, 4, 3)],
                 [2, 0, 4], 3, [])
  const S9 := At([Idler(READY, true, 0), Proc(WAITING, false, 1, 0), Proc(RUNNING, false, 2, 1),
                  Proc(READY, true, 3, 2), Proc(RUNNING, true, 4, 3)],
                 [0, 4, 3], 2, [])
  const S10 := At([Idler(RUNNING, false, 1), Proc(WAITING, false, 1, 0), Proc(READY, true, 2, 1),
                   Proc(READY, true, 3, 2), Proc(RUNNING, true, 4, 3)],
                  [4, 3, 2], 0, [])
  const S11 := At([Idler(READY, true, 0), Proc(WAITING, false, 1, 0), Proc(READY, true, 2, 1),
                   Proc(READY, true, 3, 2), Proc(RUNNING, false, 4, 3)],
                  [3, 2, 0], 4, [])
  const S12 := At([Idler(READY, true, 0), Proc(WAITING, false, 1, 0), Proc(READY, true, 2, 1),
                   Proc(RUNNING, false, 3, 2), Proc(HANGING, false, 4, 3)],
                  [2, 0], 3, [])

  lemma {:induction false} InitStarts(es: seq<Event>)
    ensures Run(Boot([]), [Tick] + ([Tick] + es)) == Run(S1, es)
  {
    hide Run;
    BootAt([]);
    assert Boot([]).sems == [];
    IdleTo(Boot([]), S1, es);
  }

  /** init forks and waits, and after the turn of the idle thread the child runs. */
  lemma {:induction false} InitWaits(es: seq<Event>)
    ensures Run(S1, [Fork] + ([Wait] + ([Tick] + ([Tick] + es)))) == Run(S4, es)
  {
    hide Run;
    ForkTo(S1, S2, [Wait] + ([Tick] + ([Tick] + es)));
    assert S2.all[2] == 2;
    WaitTo(S2, S3, 2, [Tick] + ([Tick] + es));
    IdleTo(S3, S4, es);
  }

  /** The child forks, and the grandchild gets to run. */
  lemma {:induction false} ChildForks(es: seq<Event>)
    ensures Run(S4, [Fork] + ([Yield] + ([Tick] + ([Tick] + es)))) == Run(S7, es)
  {
    hide Run;
    ForkTo(S4, S5, [Yield] + ([Tick] + ([Tick] + es)));
    YieldTo(S5, S6, [Tick] + ([Tick] + es));
    IdleTo(S6, S7, es);
  }

  /** The grandchild forks and lets its own child run. */
  lemma {:induction false} GrandchildForks(es: seq<Event>)
    ensures Run(S7, [Fork] + ([Yield] + ([Yield] + ([Tick] + ([Tick] + es))))) == Run(S11, es)
  {
    hide Run;
    ForkTo(S7, S8, [Yield] + ([Yield] + ([Tick] + ([Tick] + es))));
    YieldTo(S8, S9, [Yield] + ([Tick] + ([Tick] + es)));
    YieldTo(S9, S10, [Tick] + ([Tick] + es));
    IdleTo(S10, S11, es);
  }

  /** The youngest exits; its parent is not waiting and does not reap it. */
  lemma {:induction false} YoungestExits(es: seq<Event>)
    ensures Run(S11, [Exit] + es) == Run(S12, es)
  {
    hide Run, Leave, FreePid, FindPid;
    var a := Rechild(S11.s.tasks, S11.all, 4);
    assert a == S11.s.tasks;
    assert Orphan(S11) == S11.s;
    LeaveTo(S11.s, HANGING);
    assert Step(S11, Exit) == S12;
    RunMore(S11, Exit, es);
  }

  lemma {:induction false} OrphanReached() returns (es: seq<Event>)
    ensures Reached([], es) == S12
  {
    hide Run;
    es := [Exit] + [];
    YoungestExits([]);
    RunNone(S12);
    GrandchildForks(es);
    es := [Fork] + ([Yield] + ([Yield] + ([Tick] + ([Tick] + es))));
    ChildForks(es);
    es := [Fork] + ([Yield] + ([Tick] + ([Tick] + es)));
    InitWaits(es);
    es := [Fork] + ([Wait] + ([Tick] + ([Tick] + es)));
    InitStarts(es);
    es := [Tick] + ([Tick] + es);
  }

  /** Then the parent exits as well: init, which waits, is given the hanging child. */
  lemma {:induction false} InitMissesAnOrphan() returns (es: seq<Event>)
    ensures var k := Reached([], es); !Missed(k) && Enabled(k, Exit) && Missed(Step(k, Exit))
  {
    hide Reached, Step, KernelInv;
    es := OrphanReached();
    ReachedInv([], es);
    MissedIff(S12);
    assert S12.all[4] == 4 && IsChild(S12.s.tasks, 4, 3, true);
  }
}
