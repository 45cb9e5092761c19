/** fork, exit, wait and kill in proc.c as steps of concurrent processes.  A step is what a process
    does between two points where another may interfere; p->lock is modelled where it is held
    across steps, in sleep and exit, until the scheduler has switched away. */
module ExitWait {
  import opened Options

  const NPROC: nat := 64

  datatype State = UNUSED | USED | SLEEPING | RUNNABLE | RUNNING | ZOMBIE

  datatype Chan = NoChan | OnProc(p: nat) | Elsewhere

  // Where a process is; `i` and `j` count through the process table.
  datatype Pc =
    | Other                                   // anywhere else, holding none of these locks
    | Forking(child: nat)                     // kfork: allocproc has returned
    | ForkLocked(child: nat)                  //   has wait_lock
    | ForkNamed(child: nat)                   //   np->parent = p
    | ForkReady(child: nat)                   //   has released wait_lock
    | Exiting                                 // kexit: before acquire(&wait_lock)
    | Reparenting(i: nat)                     //   in reparent's loop
    | WakingInit(i: nat, j: nat)              //   in its wakeup(initproc)
    | WakingParent(j: nat)                    //   in wakeup(p->parent)
    | Marking                                 //   before acquire(&p->lock)
    | Marked                                  //   ZOMBIE, both locks held
    | Leaving                                 //   in sched, p->lock held
    | Dead                                    //   off the CPU
    | WaitWanting                             // kwait, or sleep inside it: before acquire(&wait_lock)
    | Scanning(i: nat, havekids: bool)        //   in the loop over the table
    | Deciding(havekids: bool)                //   after it
    | Drowsy                                  //   sleep: before acquire(&p->lock)
    | SleepHeld                               //   both locks held
    | SleepMark                               //   wait_lock released
    | SleepSwitch                             //   SLEEPING, in sched, p->lock held
    | Asleep                                  //   off the CPU

  datatype Proc = Proc(state: State, chan: Chan, killed: bool, pid: nat, parent: Option<nat>, pc: Pc)

  const FreeProc: Proc := Proc(UNUSED, NoChan, false, 0, None, Other)

  datatype System = System(
    procs: seq<Proc>,
    lock: Option<nat>,          // who holds wait_lock
    init: nat,
    nextpid: nat,
    // history
    exited: set<nat>,           // process ids that have become zombies
    reaped: set<nat>)           // process ids that kwait has returned

  predicate HoldsWait(pc: Pc) {
    pc.ForkLocked? || pc.ForkNamed? || pc.Reparenting? || pc.WakingInit? || pc.WakingParent? || pc.Marking? || pc.Marked?
    || pc.Scanning? || pc.Deciding? || pc.Drowsy? || pc.SleepHeld?
  }

  // p->lock is held while the process is at this point.
  predicate HoldsOwn(pc: Pc) { pc.Marked? || pc.Leaving? || pc.SleepHeld? || pc.SleepMark? || pc.SleepSwitch? }

  // The points at which a timer interrupt may make the process yield.
  predicate MayYield(pc: Pc) { pc.Other? || pc.Forking? || pc.ForkReady? || pc.Exiting? || pc.WaitWanting? }

  predicate Alive(st: State) { st == SLEEPING || st == RUNNABLE || st == RUNNING }

  datatype Step =
    | Alloc(p: nat, np: nat)            // allocproc finds slot np
    | Advance(p: nat)                   // the next step of fork, exit or wait
    | FailCopyout(p: nat)               // kwait's copyout fails
    | StartExit(p: nat) | StartWait(p: nat)
    | Schedule(p: nat) | Yield(p: nat)
    | SleepElsewhere(p: nat) | WakeElsewhere(p: nat)
    | Kill(q: nat)

  function At(s: System, p: nat): Proc
    requires p < |s.procs|
  {
    s.procs[p]
  }

  function SetPc(s: System, p: nat, pc: Pc): System
    requires p < |s.procs|
  {
    s.(procs := s.procs[p := s.procs[p].(pc := pc)])
  }

  // wakeup(chan) at table entry j, by p.
  function WakeOne(s: System, p: nat, chan: Chan, j: nat): System
    requires j < |s.procs|
  {
    if j != p && s.procs[j].state == SLEEPING && s.procs[j].chan == chan
    then s.(procs := s.procs[j := s.procs[j].(state := RUNNABLE)])
    else s
  }

  // The lock of table entry j is free, or is p's own business.
  predicate CanTouch(s: System, p: nat, j: nat)
    requires j < |s.procs|
  {
    j == p || !HoldsOwn(s.procs[j].pc)
  }

  predicate Reapable(s: System, p: nat, i: nat)
    requires i < |s.procs|
  {
    s.procs[i].parent == Some(p) && s.procs[i].state == ZOMBIE
  }

  // The process can take its next step.
  predicate CanAdvance(s: System, p: nat) {
    p < |s.procs| == 64 && s.init < 64
    && (var x := s.procs[p];
        match x.pc
        case Other => false
        case Dead => false
        case Asleep => false
        case Marked => true
        case Leaving => true
        case SleepSwitch => true
        case Forking(_) => x.state == RUNNING && s.lock == None
        case Exiting => x.state == RUNNING && s.lock == None
        case WaitWanting => x.state == RUNNING && s.lock == None
        case ForkLocked(np) => x.state == RUNNING && np < 64
        case ForkNamed(_) => x.state == RUNNING
        case ForkReady(np) => x.state == RUNNING && np < 64 && CanTouch(s, p, np)
        case WakingInit(_, j) => x.state == RUNNING && (j < 64 ==> CanTouch(s, p, j))
        case WakingParent(j) => x.state == RUNNING && (j < 64 ==> CanTouch(s, p, j))
        case Scanning(i, _) => x.state == RUNNING && (i < 64 && s.procs[i].parent == Some(p) ==> CanTouch(s, p, i))
        case _ => x.state == RUNNING)
  }

  // freeproc of a zombie child, with all that kwait does after it.
  function Reap(s: System, p: nat, i: nat): System
    requires p < |s.procs| && i < |s.procs|
  {
    SetPc(s.(procs := s.procs[i := FreeProc], lock := None, reaped := s.reaped + {s.procs[i].pid}), p, Other)
  }

  function ForkStep(s: System, p: nat): System
    requires CanAdvance(s, p) && (s.procs[p].pc.Forking? || s.procs[p].pc.ForkLocked? || s.procs[p].pc.ForkNamed? || s.procs[p].pc.ForkReady?)
  {
    match s.procs[p].pc
    case Forking(np) => SetPc(s.(lock := Some(p)), p, ForkLocked(np))
    case ForkLocked(np) => SetPc(s.(procs := s.procs[np := s.procs[np].(parent := Some(p))]), p, ForkNamed(np))
    case ForkNamed(np) => SetPc(s.(lock := None), p, ForkReady(np))
    case ForkReady(np) => SetPc(s.(procs := s.procs[np := s.procs[np].(state := RUNNABLE)]), p, Other)
  }

  predicate InExit(pc: Pc) {
    pc.Exiting? || pc.Reparenting? || pc.WakingInit? || pc.WakingParent? || pc.Marking? || pc.Marked? || pc.Leaving?
  }

  function ExitStep(s: System, p: nat): System
    requires CanAdvance(s, p) && InExit(s.procs[p].pc)
  {
    var x := s.procs[p];
    match x.pc
    case Exiting => SetPc(s.(lock := Some(p)), p, Reparenting(0))
    case Reparenting(i) =>
      if i >= 64 then SetPc(s, p, WakingParent(0))
      else if s.procs[i].parent == Some(p)
      then SetPc(s.(procs := s.procs[i := s.procs[i].(parent := Some(s.init))]), p, WakingInit(i, 0))
      else SetPc(s, p, Reparenting(i + 1))
    case WakingInit(i, j) =>
      if j >= 64 then SetPc(s, p, Reparenting(i + 1))
      else SetPc(WakeOne(s, p, OnProc(s.init), j), p, WakingInit(i, j + 1))
    case WakingParent(j) =>
      if j >= 64 then SetPc(s, p, Marking)
      else SetPc(if x.parent.Some? then WakeOne(s, p, OnProc(x.parent.value), j) else s, p, WakingParent(j + 1))
    case Marking =>
      SetPc(s.(procs := s.procs[p := x.(state := ZOMBIE)], exited := s.exited + {x.pid}), p, Marked)
    case Marked => SetPc(s.(lock := None), p, Leaving)
    case Leaving => SetPc(s, p, Dead)
  }

  predicate InWait(pc: Pc) {
    pc.WaitWanting? || pc.Scanning? || pc.Deciding? || pc.Drowsy? || pc.SleepHeld? || pc.SleepMark? || pc.SleepSwitch?
  }

  function WaitStep(s: System, p: nat): System
    requires CanAdvance(s, p) && InWait(s.procs[p].pc)
  {
    var x := s.procs[p];
    match x.pc
    case WaitWanting => SetPc(s.(lock := Some(p)), p, Scanning(0, false))
    case Scanning(i, havekids) =>
      if i >= 64 then SetPc(s, p, Deciding(havekids))
      else if s.procs[i].parent != Some(p) then SetPc(s, p, Scanning(i + 1, havekids))
      else if s.procs[i].state == ZOMBIE then Reap(s, p, i)
      else SetPc(s, p, Scanning(i + 1, true))
    case Deciding(havekids) =>
      if !havekids || x.killed then SetPc(s.(lock := None), p, Other) else SetPc(s, p, Drowsy)
    case Drowsy => SetPc(s, p, SleepHeld)
    case SleepHeld => SetPc(s.(lock := None), p, SleepMark)
    case SleepMark => SetPc(s.(procs := s.procs[p := x.(chan := OnProc(p), state := SLEEPING)]), p, SleepSwitch)
    case SleepSwitch => SetPc(s, p, Asleep)
  }

  predicate Enabled(s: System, step: Step) {
    |s.procs| == 64 && s.init < 64
    && match step
       case Alloc(p, np) => p < 64 && np < 64 && s.procs[p].pc == Other && s.procs[p].state == RUNNING && s.procs[np].state == UNUSED
       case Advance(p) => CanAdvance(s, p)
       case FailCopyout(p) =>
         p < 64 && s.procs[p].pc.Scanning? && s.procs[p].state == RUNNING && s.procs[p].pc.i < 64
         && Reapable(s, p, s.procs[p].pc.i) && CanTouch(s, p, s.procs[p].pc.i)
       case StartExit(p) => p < 64 && p != s.init && s.procs[p].pc == Other && s.procs[p].state == RUNNING   // init panics
       case StartWait(p) => p < 64 && s.procs[p].pc == Other && s.procs[p].state == RUNNING
       case Schedule(p) => p < 64 && s.procs[p].state == RUNNABLE && !HoldsOwn(s.procs[p].pc)
       case Yield(p) => p < 64 && s.procs[p].state == RUNNING && MayYield(s.procs[p].pc)
       case SleepElsewhere(p) => p < 64 && s.procs[p].state == RUNNING && s.procs[p].pc == Other
       case WakeElsewhere(p) => p < 64 && s.procs[p].state == SLEEPING && s.procs[p].chan == Elsewhere
       case Kill(q) => q < 64 && s.procs[q].state != UNUSED && !HoldsOwn(s.procs[q].pc)
  }

  function Do(s: System, step: Step): System
    requires Enabled(s, step)
  {
    match step
    case Alloc(p, np) =>
      SetPc(s.(procs := s.procs[np := FreeProc.(state := USED, pid := s.nextpid)], nextpid := s.nextpid + 1), p, Forking(np))
    case Advance(p) =>
      if InExit(s.procs[p].pc) then ExitStep(s, p)
      else if InWait(s.procs[p].pc) then WaitStep(s, p)
      else ForkStep(s, p)
    case FailCopyout(p) => SetPc(s.(lock := None), p, Other)
    case StartExit(p) => SetPc(s, p, Exiting)
    case StartWait(p) => SetPc(s, p, WaitWanting)
    case Schedule(p) =>
      // the end of sleep: p->chan = 0, and wait_lock is wanted again
      var x := s.procs[p].(state := RUNNING, chan := NoChan);
      s.(procs := s.procs[p := if x.pc == Asleep then x.(pc := WaitWanting) else x])
    case Yield(p) => s.(procs := s.procs[p := s.procs[p].(state := RUNNABLE)])
    case SleepElsewhere(p) => s.(procs := s.procs[p := s.procs[p].(state := SLEEPING, chan := Elsewhere)])
    case WakeElsewhere(p) => s.(procs := s.procs[p := s.procs[p].(state := RUNNABLE)])
    case Kill(q) =>
      var x := s.procs[q].(killed := true);
      s.(procs := s.procs[q := if x.state == SLEEPING then x.(state := RUNNABLE) else x])
  }
}
