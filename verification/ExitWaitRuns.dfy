/** Every run of fork, exit, wait and kill. */
module ExitWaitRuns {
  import opened Options
  import opened ExitWait
  import opened ExitWaitInv

  lemma StepKeepsInv(s: System, step: Step)
    requires Inv(s) && Enabled(s, step)
    ensures Inv(Do(s, step))
  {
    hide Inv;
    match step
    case Alloc(p, np) => AllocKeepsInv(s, p, np);
    case Advance(p) => AdvanceKeepsInv(s, p);
    case FailCopyout(p) => StartKeepsInv(s, p, step);
    case StartExit(p) => StartKeepsInv(s, p, step);
    case StartWait(p) => StartKeepsInv(s, p, step);
    case Schedule(p) => SwitchKeepsInv(s, p, step);
    case Yield(p) => SwitchKeepsInv(s, p, step);
    case SleepElsewhere(p) => StirKeepsInv(s, p, step);
    case WakeElsewhere(p) => StirKeepsInv(s, p, step);
    case Kill(q) => StirKeepsInv(s, q, step);
  }

  lemma AllocKeepsInv(s: System, p: nat, np: nat)
    requires Inv(s) && Enabled(s, Alloc(p, np))
    ensures Inv(Do(s, Alloc(p, np)))
  {
    hide AllLocal;
    hide AllKin;
    hide AllNap;
    hide AllRouse;
    hide Forks;
    AllocKeepsPoints(s, p, np);
    AllocKeepsKin(s, p, np);
    AllocKeepsNap(s, p, np);
  }

  lemma StartKeepsInv(s: System, p: nat, step: Step)
    requires Inv(s) && Enabled(s, step) && Starts(step, p)
    ensures Inv(Do(s, step))
  {
    hide AllLocal;
    hide AllKin;
    hide AllNap;
    hide AllRouse;
    hide Forks;
    StartKeepsPoints(s, p, step);
    StartKeepsKin(s, p, step);
    StartKeepsNap(s, p, step);
  }

  lemma SwitchKeepsInv(s: System, p: nat, step: Step)
    requires Inv(s) && Enabled(s, step) && Switches(step, p)
    ensures Inv(Do(s, step))
  {
    hide AllLocal;
    hide AllKin;
    hide AllNap;
    hide AllRouse;
    hide Forks;
    SwitchKeepsPoints(s, p, step);
    SwitchKeepsKin(s, p, step);
    SwitchKeepsNap(s, p, step);
  }

  lemma StirKeepsInv(s: System, p: nat, step: Step)
    requires Inv(s) && Enabled(s, step) && Stirs(step, p)
    ensures Inv(Do(s, step))
  {
    hide AllLocal;
    hide AllKin;
    hide AllNap;
    hide AllRouse;
    hide Forks;
    StirKeepsPoints(s, p, step);
    StirKeepsKin(s, p, step);
    StirKeepsNap(s, p, step);
  }

  lemma AdvanceKeepsInv(s: System, p: nat)
    requires Inv(s) && CanAdvance(s, p)
    ensures Inv(Do(s, Advance(p)))
  {
    hide AllLocal;
    hide AllKin;
    hide AllNap;
    hide AllRouse;
    hide Forks;
    var pc := s.procs[p].pc;
    if InExit(pc) {
      if Wakes(s, p) {
        WakeKeepsPoints(s, p);
        WakeKeepsForks(s, p);
        WakeKeepsKin(s, p);
        WakeKeepsNap(s, p);
      } else {
        ExitKeepsPoints(s, p);
        ExitKeepsForks(s, p);
        ExitKeepsKin(s, p);
        ExitKeepsNap(s, p);
      }
    } else if InWait(pc) {
      if Reaps(s, p) {
        ReapKeepsPoints(s, p, pc.i);
        ReapKeepsKin(s, p, pc.i);
        ReapKeepsNap(s, p, pc.i);
      } else {
        WaitKeepsPoints(s, p);
        WaitKeepsForks(s, p);
        WaitKeepsKin(s, p);
        WaitKeepsNap(s, p);
      }
    } else {
      var np := match pc case Forking(n) => n case ForkLocked(n) => n case ForkNamed(n) => n case ForkReady(n) => n case _ => 0;
      ForkKeepsPoints(s, p, np);
      ForkKeepsKin(s, p, np);
      ForkKeepsNap(s, p, np);
    }
  }

  // ---- history -----------------------------------------------------------------------------

  ghost predicate PidOk(s: System, p: nat)
    requires p < |s.procs|
  {
    var x := s.procs[p];
    x.state != UNUSED ==>
      && x.pid < s.nextpid && (x.state == ZOMBIE <==> x.pid in s.exited) && x.pid !in s.reaped
  }

  // Process ids are never used twice.
  ghost predicate Pids(s: System) {
    && |s.procs| == 64
    && (forall p :: 0 <= p < 64 ==> PidOk(s, p))
    && (forall p, q :: 0 <= p < 64 && 0 <= q < 64 && p != q && s.procs[p].state != UNUSED && s.procs[q].state != UNUSED ==>
          s.procs[p].pid != s.procs[q].pid)
    && s.reaped <= s.exited && (forall n :: n in s.exited ==> n < s.nextpid)
  }

  // The step neither makes nor ends a process.
  ghost predicate SameIds(s: System, t: System) {
    && |t.procs| == |s.procs| && t.nextpid == s.nextpid && t.exited == s.exited && t.reaped == s.reaped
    && forall p :: 0 <= p < |s.procs| ==>
         && t.procs[p].pid == s.procs[p].pid && (t.procs[p].state == ZOMBIE <==> s.procs[p].state == ZOMBIE)
         && (t.procs[p].state == UNUSED <==> s.procs[p].state == UNUSED)
  }

  lemma SameIdsKeep(s: System, t: System)
    requires Pids(s) && SameIds(s, t)
    ensures Pids(t)
  {
    forall p | 0 <= p < 64 ensures PidOk(t, p) { assert PidOk(s, p); }
  }

  lemma MarkingKeepsPids(s: System, p: nat)
    requires Pids(s) && p < 64 && CanAdvance(s, p) && s.procs[p].pc == Marking
    ensures Pids(ExitStep(s, p))
  {
    var t := ExitStep(s, p);
    assert PidOk(s, p);
    forall q | 0 <= q < 64 ensures PidOk(t, q) { assert PidOk(s, q); }
  }

  lemma ReapKeepsPids(s: System, p: nat, i: nat)
    requires Pids(s) && p < 64 && i < 64 && p != i && Reapable(s, p, i)
    ensures Pids(Reap(s, p, i))
  {
    var t := Reap(s, p, i);
    assert PidOk(s, i);
    forall q | 0 <= q < 64 ensures PidOk(t, q) { assert PidOk(s, q); }
  }

  lemma AllocKeepsPids(s: System, p: nat, np: nat)
    requires Pids(s) && Enabled(s, Alloc(p, np))
    ensures Pids(Do(s, Alloc(p, np)))
  {
    var t := Do(s, Alloc(p, np));
    forall q | 0 <= q < 64 ensures PidOk(t, q) && (s.procs[q].state != UNUSED ==> s.procs[q].pid < s.nextpid) {
      assert PidOk(s, q);
    }
  }

  lemma ExitKeepsPids(s: System, p: nat)
    requires Inv(s) && Pids(s) && CanAdvance(s, p) && InExit(s.procs[p].pc)
    ensures Pids(ExitStep(s, p))
  {
    hide AllKin;
    hide AllNap;
    hide AllRouse;
    hide Forks;
    hide Pids;
    if s.procs[p].pc == Marking {
      MarkingKeepsPids(s, p);
    } else {
      SameIdsKeep(s, ExitStep(s, p));
    }
  }

  lemma WaitKeepsPids(s: System, p: nat)
    requires Inv(s) && Pids(s) && CanAdvance(s, p) && InWait(s.procs[p].pc)
    ensures Pids(WaitStep(s, p))
  {
    hide AllKin;
    hide AllNap;
    hide AllRouse;
    hide Forks;
    hide Pids;
    assert Local(s, p);
    if Reaps(s, p) {
      ReapKeepsPids(s, p, s.procs[p].pc.i);
    } else {
      SameIdsKeep(s, WaitStep(s, p));
    }
  }

  lemma ForkKeepsIds(s: System, p: nat)
    requires CanAdvance(s, p) && !InExit(s.procs[p].pc) && !InWait(s.procs[p].pc) && Local(s, p)
    ensures SameIds(s, ForkStep(s, p))
  {
  }

  lemma OthersKeepIds(s: System, step: Step)
    requires Enabled(s, step) && !step.Alloc? && !step.Advance?
    ensures SameIds(s, Do(s, step))
  {
  }

  lemma AdvanceKeepsPids(s: System, p: nat)
    requires Inv(s) && Pids(s) && CanAdvance(s, p)
    ensures Pids(Do(s, Advance(p)))
  {
    hide AllKin;
    hide AllNap;
    hide AllRouse;
    hide Forks;
    hide Pids;
    hide SameIds;
    assert Local(s, p);
    if InExit(s.procs[p].pc) {
      ExitKeepsPids(s, p);
    } else if InWait(s.procs[p].pc) {
      WaitKeepsPids(s, p);
    } else {
      ForkKeepsIds(s, p);
      SameIdsKeep(s, ForkStep(s, p));
    }
  }

  lemma StepKeepsPids(s: System, step: Step)
    requires Inv(s) && Pids(s) && Enabled(s, step)
    ensures Pids(Do(s, step))
  {
    hide Inv;
    hide Pids;
    hide SameIds;
    hide Do;
    match step
    case Alloc(p, np) => AllocKeepsPids(s, p, np);
    case Advance(p) => AdvanceKeepsPids(s, p);
    case _ =>
      OthersKeepIds(s, step);
      SameIdsKeep(s, Do(s, step));
  }

  // ---- runs --------------------------------------------------------------------------------

  // The first process, and no other.
  ghost function Boot(): System {
    System(seq(64, p => if p == 0 then Proc(RUNNABLE, NoChan, false, 1, None, Other) else FreeProc), None, 0, 2, {}, {})
  }

  lemma BootInv()
    ensures Inv(Boot()) && Pids(Boot())
  {
  }

  ghost predicate IsRun(run: seq<System>, steps: seq<Step>) {
    && |run| == |steps| + 1 && run[0] == Boot()
    && forall i :: 0 <= i < |steps| ==> Enabled(run[i], steps[i]) && run[i + 1] == Do(run[i], steps[i])
  }

  lemma {:induction false} RunsKeepInv(run: seq<System>, steps: seq<Step>, i: nat)
    requires IsRun(run, steps) && i < |run|
    ensures Inv(run[i]) && Pids(run[i])
  {
    hide Inv;
    hide Pids;
    hide Do;
    hide Enabled;
    if i == 0 {
      BootInv();
    } else {
      RunsKeepInv(run, steps, i - 1);
      StepKeepsInv(run[i - 1], steps[i - 1]);
      StepKeepsPids(run[i - 1], steps[i - 1]);
    }
  }

  /** Whenever wait_lock is free, in any run: no process sleeps in kwait while one of its children is
      a zombie, and no parent pointer names a slot that is unused or a zombie. */
  lemma NoLostWakeup(run: seq<System>, steps: seq<Step>, i: nat, q: nat, c: nat)
    requires IsRun(run, steps) && i < |run| && run[i].lock == None
    requires q < 64 && c < 64 && |run[i].procs| == 64 && run[i].procs[c].parent == Some(q)
    ensures run[i].procs[q].state == SLEEPING && run[i].procs[q].chan == OnProc(q) ==> run[i].procs[c].state != ZOMBIE
    ensures Alive(run[i].procs[q].state)
  {
    hide IsRun;
    hide AllLocal;
    hide AllRouse;
    RunsKeepInv(run, steps, i);
    assert Nap(run[i], q, c) && Kin(run[i], c);
  }

  // A pid that is reaped has exited; and once reaped it is gone for good.
  lemma ReapedHasExited(s: System, n: nat)
    requires Pids(s) && n in s.reaped
    ensures n in s.exited && forall p :: 0 <= p < 64 && s.procs[p].state != UNUSED ==> s.procs[p].pid != n
  {
    forall p | 0 <= p < 64 && s.procs[p].state != UNUSED ensures s.procs[p].pid != n { assert PidOk(s, p); }
  }

  lemma {:induction false} GoneForGood(run: seq<System>, steps: seq<Step>, i: nat, j: nat)
    requires IsRun(run, steps) && i <= j < |run|
    ensures run[i].reaped <= run[j].reaped
    decreases j - i
  {
    if i < j {
      GoneForGood(run, steps, i, j - 1);
      assert Enabled(run[j - 1], steps[j - 1]) && run[j] == Do(run[j - 1], steps[j - 1]);
    }
  }

  /** Each zombie is reaped at most once: a process id that kwait has returned belongs to no process
      any more, now or later, so no later kwait returns it. */
  lemma ReapedOnce(run: seq<System>, steps: seq<Step>, i: nat, j: nat, n: nat)
    requires IsRun(run, steps) && i <= j < |run| && n in run[i].reaped
    ensures n in run[j].exited && |run[j].procs| == 64
    ensures forall p :: 0 <= p < 64 && run[j].procs[p].state != UNUSED ==> run[j].procs[p].pid != n
  {
    hide IsRun;
    RunsKeepInv(run, steps, j);
    GoneForGood(run, steps, i, j);
    ReapedHasExited(run[j], n);
  }
}
