/** More of what holds in every run: the slots that fork is filling, who can move while wait_lock is
    held, and what kill does to a process that is about to sleep in kwait. */
module ExitWaitFork {
  import opened Options
  import opened ExitWait
  import opened ExitWaitInv
  import opened ExitWaitRuns

  // ---- the slots fork is filling -----------------------------------------------------------

  ghost predicate BeingMade(s: System, np: nat) { exists p :: 0 <= p < |s.procs| && Making(s, p, np) }

  ghost predicate Made(s: System) {
    && (forall np :: 0 <= np < |s.procs| && s.procs[np].state == USED ==> BeingMade(s, np))
    && (s.lock.Some? ==> s.lock.value < |s.procs|)
  }

  // The step begins and ends no fork.
  ghost predicate SameForks(s: System, t: System) {
    && |t.procs| == |s.procs|
    && (forall np :: 0 <= np < |s.procs| && t.procs[np].state == USED ==> s.procs[np].state == USED)
    && (forall q, np :: 0 <= q < |s.procs| && Making(s, q, np) ==> Making(t, q, np))
    && (t.lock.Some? ==> t.lock == s.lock || t.lock.value < |s.procs|)
  }

  lemma SameForksKeep(s: System, t: System)
    requires Made(s) && SameForks(s, t)
    ensures Made(t)
  {
    hide Making;
    forall np | 0 <= np < |t.procs| && t.procs[np].state == USED ensures BeingMade(t, np) {
      assert BeingMade(s, np);
      var p :| 0 <= p < |s.procs| && Making(s, p, np);
      assert Making(t, p, np);
    }
  }

  lemma AllocMakes(s: System, p: nat, np: nat)
    requires Inv(s) && Made(s) && Enabled(s, Alloc(p, np))
    ensures Made(Do(s, Alloc(p, np)))
  {
    hide AllKin;
    hide AllNap;
    hide AllRouse;
    hide Forks;
    assert Local(s, np);
    var t := Do(s, Alloc(p, np));
    assert Making(t, p, np);
    forall n | 0 <= n < 64 && t.procs[n].state == USED ensures BeingMade(t, n) {
      if n != np {
        assert BeingMade(s, n);
        var q :| 0 <= q < |s.procs| && Making(s, q, n);
        assert Making(t, q, n);
      }
    }
  }

  lemma ForkMakes(s: System, p: nat, np: nat)
    requires Made(s) && CanAdvance(s, p) && Making(s, p, np) && np < 64
    ensures Made(ForkStep(s, p))
  {
    var t := ForkStep(s, p);
    assert s.procs[p].pc.ForkReady? || Making(t, p, np);
    forall n | 0 <= n < 64 && t.procs[n].state == USED ensures BeingMade(t, n) {
      if n != np {
        assert BeingMade(s, n);
        var q :| 0 <= q < |s.procs| && Making(s, q, n);
        assert Making(t, q, n);
      }
    }
  }

  lemma ExitSame(s: System, p: nat)
    requires CanAdvance(s, p) && InExit(s.procs[p].pc)
    ensures SameForks(s, ExitStep(s, p))
  {
  }

  lemma WaitSame(s: System, p: nat)
    requires CanAdvance(s, p) && InWait(s.procs[p].pc)
    requires Reaps(s, p) ==> s.procs[s.procs[p].pc.i].pc == Dead
    ensures SameForks(s, WaitStep(s, p))
  {
  }

  // A zombie that can be reaped has left the processor or is about to.
  lemma ZombieIsDead(s: System, p: nat)
    requires Inv(s) && CanAdvance(s, p) && Reaps(s, p)
    ensures s.procs[s.procs[p].pc.i].pc == Dead
  {
    hide AllKin;
    hide AllNap;
    hide AllRouse;
    hide Forks;
    hide ChildFits;
    assert Local(s, p) && Local(s, s.procs[p].pc.i);
  }

  lemma OtherSame(s: System, step: Step)
    requires Enabled(s, step) && !step.Alloc? && !step.Advance?
    ensures SameForks(s, Do(s, step))
  {
  }

  lemma StepKeepsMade(s: System, step: Step)
    requires Inv(s) && Made(s) && Enabled(s, step)
    ensures Made(Do(s, step))
  {
    hide Inv;
    hide Made;
    hide SameForks;
    hide Making;
    match step
    case Alloc(p, np) => AllocMakes(s, p, np);
    case Advance(p) => AdvanceKeepsMade(s, p);
    case _ =>
      OtherSame(s, step);
      SameForksKeep(s, Do(s, step));
  }

  lemma AdvanceKeepsMade(s: System, p: nat)
    requires Inv(s) && Made(s) && CanAdvance(s, p)
    ensures Made(Do(s, Advance(p)))
  {
    hide Inv;
    hide Made;
    hide SameForks;
    if InExit(s.procs[p].pc) {
      ExitSame(s, p);
      SameForksKeep(s, ExitStep(s, p));
    } else if InWait(s.procs[p].pc) {
      if Reaps(s, p) { ZombieIsDead(s, p); }
      WaitSame(s, p);
      SameForksKeep(s, WaitStep(s, p));
    } else {
      var np := match s.procs[p].pc case Forking(n) => n case ForkLocked(n) => n case ForkNamed(n) => n case ForkReady(n) => n case _ => 0;
      MadeFits(s, p, np);
      ForkMakes(s, p, np);
    }
  }

  lemma MadeFits(s: System, p: nat, np: nat)
    requires Inv(s) && p < 64 && Making(s, p, np)
    ensures np < 64 && s.procs[np].state == USED
  {
    hide AllKin;
    hide AllNap;
    hide AllRouse;
    hide Forks;
    assert Local(s, p);
  }

  lemma {:induction false} RunsKeepMade(run: seq<System>, steps: seq<Step>, i: nat)
    requires IsRun(run, steps) && i < |run|
    ensures Inv(run[i]) && Made(run[i])
  {
    hide Inv;
    hide Do;
    hide Enabled;
    RunsKeepInv(run, steps, i);
    if i > 0 {
      hide Made;
      RunsKeepMade(run, steps, i - 1);
      StepKeepsMade(run[i - 1], steps[i - 1]);
    }
  }

  /** A child waits for its fork and for nothing else: in every state of every run a slot is USED if and
      only if some process is inside kfork with this slot as its child, and then it is one process. */
  lemma UsedIffForking(run: seq<System>, steps: seq<Step>, i: nat, np: nat)
    requires IsRun(run, steps) && i < |run| && np < 64
    ensures |run[i].procs| == 64
    ensures run[i].procs[np].state == USED <==> exists p :: 0 <= p < 64 && Making(run[i], p, np)
    ensures forall p, q :: 0 <= p < 64 && 0 <= q < 64 && Making(run[i], p, np) && Making(run[i], q, np) ==> p == q
  {
    hide IsRun;
    hide Making;
    hide AllLocal;
    hide AllKin;
    hide AllNap;
    hide AllRouse;
    RunsKeepMade(run, steps, i);
    if run[i].procs[np].state == USED { assert BeingMade(run[i], np); }
    forall p | 0 <= p < 64 && Making(run[i], p, np) ensures run[i].procs[np].state == USED { MadeFits(run[i], p, np); }
  }

  // ---- somebody moves ----------------------------------------------------------------------

  // A process with its own lock that is not in wait_lock's section can let go of it.
  lemma OwnerMoves(s: System, j: nat)
    requires Inv(s) && j < 64 && HoldsOwn(s.procs[j].pc) && s.lock != Some(j)
    ensures CanAdvance(s, j)
  {
    hide AllKin;
    hide AllNap;
    hide AllRouse;
    hide Forks;
    hide ChildFits;
    assert Local(s, j);
  }

  // Whose lock the process needs next.
  ghost function Needs(s: System, p: nat): nat
    requires p < |s.procs|
  {
    match s.procs[p].pc
    case ForkReady(np) => np
    case WakingInit(_, j) => j
    case WakingParent(j) => j
    case Scanning(i, _) => i
    case _ => p
  }

  lemma HolderMoves(s: System, p: nat)
    requires Inv(s) && p < 64 && s.lock == Some(p)
    ensures CanAdvance(s, p) || (Needs(s, p) < 64 && Needs(s, p) != p && HoldsOwn(s.procs[Needs(s, p)].pc))
  {
    hide AllKin;
    hide AllNap;
    hide AllRouse;
    hide Forks;
    assert Local(s, p);
  }

  /** wait_lock is never stuck: in every state of every run where it is held, its holder can take its
      next step, or the process whose own lock the holder waits for can. */
  lemma LockMoves(run: seq<System>, steps: seq<Step>, i: nat)
    requires IsRun(run, steps) && i < |run| && run[i].lock.Some?
    ensures var p := run[i].lock.value;
            p < |run[i].procs| == 64 && (CanAdvance(run[i], p) || CanAdvance(run[i], Needs(run[i], p)))
  {
    hide IsRun;
    hide CanAdvance;
    hide AllLocal;
    hide AllKin;
    hide AllNap;
    hide AllRouse;
    hide Forks;
    RunsKeepMade(run, steps, i);
    var s, p := run[i], run[i].lock.value;
    HolderMoves(s, p);
    if !CanAdvance(s, p) { OwnerMoves(s, Needs(s, p)); }
  }

  // ---- kill --------------------------------------------------------------------------------

  /** kill marks its victim, which no longer sleeps, and changes nothing else. */
  lemma KillMarks(s: System, q: nat)
    requires Enabled(s, Kill(q))
    ensures var t := Do(s, Kill(q));
            && t.procs[q].killed && t.procs[q].state == (if s.procs[q].state == SLEEPING then RUNNABLE else s.procs[q].state)
            && t.procs[q].(killed := s.procs[q].killed, state := s.procs[q].state) == s.procs[q]
            && t == s.(procs := t.procs) && |t.procs| == 64
            && forall p :: 0 <= p < 64 && p != q ==> t.procs[p] == s.procs[p]
  {
  }

  // Killed, and yet asleep in kwait, or past its last look at the mark on the way there.
  ghost predicate SleepsKilled(s: System, q: nat)
    requires q < |s.procs|
  {
    s.procs[q].killed &&
    match s.procs[q].pc
    case Drowsy => true
    case SleepHeld => true
    case SleepMark => true
    case SleepSwitch => true
    case Asleep => s.procs[q].state == SLEEPING
    case _ => false
  }

  lemma AdvanceHeeds(s: System, p: nat, q: nat)
    requires CanAdvance(s, p) && q < 64 && Local(s, q) && Local(s, p)
    ensures |Do(s, Advance(p)).procs| == 64
    ensures SleepsKilled(Do(s, Advance(p)), q) ==> SleepsKilled(s, q)
  {
    hide ChildFits;
    if InExit(s.procs[p].pc) {
      ExitHeeds(s, p, q);
    } else if InWait(s.procs[p].pc) {
      WaitHeeds(s, p, q);
    }
  }

  lemma ExitHeeds(s: System, p: nat, q: nat)
    requires CanAdvance(s, p) && InExit(s.procs[p].pc) && q < 64 && Local(s, q)
    ensures |ExitStep(s, p).procs| == 64
    ensures SleepsKilled(ExitStep(s, p), q) ==> SleepsKilled(s, q)
  {
    hide ChildFits;
  }

  lemma WaitHeeds(s: System, p: nat, q: nat)
    requires CanAdvance(s, p) && InWait(s.procs[p].pc) && q < 64 && Local(s, q)
    ensures |WaitStep(s, p).procs| == 64
    ensures SleepsKilled(WaitStep(s, p), q) ==> SleepsKilled(s, q)
  {
    hide ChildFits;
  }

  lemma KillMissesStep(s: System, step: Step, q: nat)
    requires Inv(s) && Enabled(s, step) && q < 64
    ensures |Do(s, step).procs| == 64
    ensures SleepsKilled(Do(s, step), q) && !SleepsKilled(s, q) <==>
            step == Kill(q) && s.procs[q].pc == Drowsy && !s.procs[q].killed
  {
    hide Inv;
    LocalOf(s, q);
    if step.Advance? {
      hide Do;
      hide Enabled;
      hide Local;
      hide SleepsKilled;
      LocalOf(s, step.p);
      AdvanceHeeds(s, step.p, q);
    }
  }

  lemma LocalOf(s: System, q: nat)
    requires Inv(s) && q < 64
    ensures |s.procs| == 64 && Local(s, q)
  {
    hide AllKin;
    hide AllNap;
    hide AllRouse;
    hide Forks;
  }

  // The kill comes after kwait has looked at the mark and before it is asleep.
  ghost predicate Misses(run: seq<System>, steps: seq<Step>, i: nat, q: nat)
    requires i < |steps| && |run| == |steps| + 1
  {
    steps[i] == Kill(q) && |run[i].procs| == 64 && q < 64 && run[i].procs[q].pc == Drowsy && !run[i].procs[q].killed
  }

  ghost predicate AsleepKilled(s: System, q: nat) { q < |s.procs| && SleepsKilled(s, q) }

  lemma {:induction false} NoneKilled(run: seq<System>, steps: seq<Step>, q: nat, i: nat)
    requires IsRun(run, steps) && i < |run| && q < 64
    requires forall k :: 0 <= k < |steps| ==> !Misses(run, steps, k, q)
    ensures !AsleepKilled(run[i], q)
  {
    hide Inv;
    hide Do;
    hide Enabled;
    hide SleepsKilled;
    if i == 0 {
      BootAwake(q);
    } else {
      NoneKilled(run, steps, q, i - 1);
      RunsKeepInv(run, steps, i - 1);
      ProcCount(run[i - 1]);
      KillMissesStep(run[i - 1], steps[i - 1], q);
      assert !Misses(run, steps, i - 1, q);
    }
  }

  lemma BootAwake(q: nat)
    requires q < 64
    ensures !AsleepKilled(Boot(), q)
  {
  }

  lemma ProcCount(s: System)
    requires Inv(s)
    ensures |s.procs| == 64
  {
  }

  /** A killed process sleeps in kwait, or is about to, in some state of a run if and only if the run
      holds a kill between kwait's look at the mark and its sleep: that kill finds nobody asleep to
      wake, and the process sleeps on until one of its children exits or it is killed again. */
  lemma KilledSleepsIff(run: seq<System>, steps: seq<Step>, q: nat)
    requires IsRun(run, steps) && q < 64
    ensures (exists i :: 0 <= i < |run| && AsleepKilled(run[i], q)) <==> (exists i :: 0 <= i < |steps| && Misses(run, steps, i, q))
  {
    hide Inv;
    hide Do;
    hide Enabled;
    hide SleepsKilled;
    if i :| 0 <= i < |steps| && Misses(run, steps, i, q) {
      RunsKeepInv(run, steps, i);
      ProcCount(run[i]);
      KillMissesStep(run[i], steps[i], q);
      DrowsyAwake(run[i], q);
      assert AsleepKilled(run[i + 1], q);
    } else {
      forall i | 0 <= i < |run| ensures !AsleepKilled(run[i], q) { NoneKilled(run, steps, q, i); }
    }
  }

  lemma DrowsyAwake(s: System, q: nat)
    requires q < |s.procs| && !s.procs[q].killed
    ensures !SleepsKilled(s, q)
  {
  }

  // ---- in and out --------------------------------------------------------------------------

  // Nothing differs but this process's slot.
  ghost predicate OnlySlot(s: System, t: System, p: nat) {
    t == s.(procs := t.procs) && |t.procs| == |s.procs| && forall q :: 0 <= q < |s.procs| && q != p ==> t.procs[q] == s.procs[q]
  }

  /** A process that yields, or sleeps on a channel of its own and is woken, is back as it was once it
      is scheduled again; in between it is runnable or asleep, and nobody else has changed. */
  lemma ComesBack(s: System, p: nat)
    requires p < 64 && |s.procs| == 64 && s.procs[p].chan == NoChan
    ensures Enabled(s, Yield(p)) ==>
              var t := Do(s, Yield(p));
              OnlySlot(s, t, p) && t.procs[p].state == RUNNABLE && Enabled(t, Schedule(p)) && Do(t, Schedule(p)) == s
    ensures Enabled(s, SleepElsewhere(p)) ==>
              var t := Do(s, SleepElsewhere(p));
              && OnlySlot(s, t, p) && t.procs[p].state == SLEEPING && Enabled(t, WakeElsewhere(p))
              && Enabled(Do(t, WakeElsewhere(p)), Schedule(p)) && Do(Do(t, WakeElsewhere(p)), Schedule(p)) == s
  {
    if Enabled(s, Yield(p)) { assert Do(Do(s, Yield(p)), Schedule(p)).procs == s.procs; }
    if Enabled(s, SleepElsewhere(p)) {
      assert Do(Do(Do(s, SleepElsewhere(p)), WakeElsewhere(p)), Schedule(p)).procs == s.procs;
    }
  }

  /** A process that enters kexit or kwait can take its next step as soon as wait_lock is free. A kwait
      whose copyout fails gives the lock back and leaves the zombie for the next one. */
  lemma CallsBegin(s: System, p: nat)
    requires p < 64 && |s.procs| == 64
    ensures Enabled(s, StartExit(p)) ==>
              var t := Do(s, StartExit(p));
              OnlySlot(s, t, p) && t.procs[p] == s.procs[p].(pc := Exiting) && (s.lock == None ==> CanAdvance(t, p))
    ensures Enabled(s, StartWait(p)) ==>
              var t := Do(s, StartWait(p));
              OnlySlot(s, t, p) && t.procs[p] == s.procs[p].(pc := WaitWanting) && (s.lock == None ==> CanAdvance(t, p))
    ensures Enabled(s, FailCopyout(p)) ==>
              var t, i := Do(s, FailCopyout(p)), s.procs[p].pc.i;
              OnlySlot(s.(lock := None), t, p) && t.procs[p].pc == Other && t.procs[p].state == RUNNING
              && (i != p ==> Reapable(t, p, i))
  {
  }
}
