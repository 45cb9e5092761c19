/** What every step of fork, exit, wait and kill keeps: no wakeup of a waiting parent is lost. */
module ExitWaitInv {
  import opened Options
  import opened ExitWait

  // ---- the invariant -----------------------------------------------------------------------

  // State and channel fit the point the process is at.
  ghost predicate StateFits(x: Proc, p: nat) {
    match x.pc
    case Other => x.state != ZOMBIE && !x.chan.OnProc?
    case Forking(_) => (x.state == RUNNING || x.state == RUNNABLE) && !x.chan.OnProc?
    case ForkReady(_) => (x.state == RUNNING || x.state == RUNNABLE) && !x.chan.OnProc?
    case Exiting => (x.state == RUNNING || x.state == RUNNABLE) && !x.chan.OnProc?
    case WaitWanting => (x.state == RUNNING || x.state == RUNNABLE) && !x.chan.OnProc?
    case Marked => x.state == ZOMBIE
    case Leaving => x.state == ZOMBIE
    case Dead => x.state == ZOMBIE
    case SleepSwitch => x.state == SLEEPING && x.chan == OnProc(p)
    case Asleep => (x.state == SLEEPING || x.state == RUNNABLE) && x.chan == OnProc(p)
    case _ => x.state == RUNNING && !x.chan.OnProc?
  }

  // The child a fork is making.
  ghost predicate ChildFits(s: System, p: nat)
    requires p < |s.procs|
  {
    match s.procs[p].pc
    case Forking(np) => np < |s.procs| && np != p && s.procs[np].state == USED && s.procs[np].parent == None
    case ForkLocked(np) => np < |s.procs| && np != p && s.procs[np].state == USED && s.procs[np].parent == None
    case ForkNamed(np) => np < |s.procs| && np != p && s.procs[np].state == USED && s.procs[np].parent == Some(p)
    case ForkReady(np) => np < |s.procs| && np != p && s.procs[np].state == USED && s.procs[np].parent == Some(p)
    case _ => true
  }

  ghost predicate Local(s: System, p: nat)
    requires p < |s.procs|
  {
    var x := s.procs[p];
    && (HoldsWait(x.pc) <==> s.lock == Some(p))
    && StateFits(x, p) && ChildFits(s, p)
    && (x.state == UNUSED || x.state == USED ==> x.pc == Other && x.chan == NoChan)
    && (x.state == UNUSED ==> x.parent == None)
    && (InExit(x.pc) || x.pc == Dead ==> p != s.init)
  }

  // A parent is alive; one that is exiting has already given this child away, or has still to
  // come to it.
  ghost predicate Kin(s: System, c: nat)
    requires c < |s.procs|
  {
    s.procs[c].parent.Some? ==>
      var q := s.procs[c].parent.value;
      && q < |s.procs| && q != c && Alive(s.procs[q].state)
      && match s.procs[q].pc
         case Reparenting(i) => i <= c
         case WakingInit(i, _) => i < c
         case WakingParent(_) => false
         case Marking => false
         case _ => true
  }

  // Asleep in kwait, or past the point of no return.
  ghost predicate Dozing(s: System, q: nat)
    requires q < |s.procs|
  {
    (s.procs[q].state == SLEEPING && s.procs[q].chan == OnProc(q)) || s.procs[q].pc == SleepMark || s.procs[q].pc == SleepSwitch
  }

  ghost predicate ZombieChild(s: System, q: nat, c: nat) {
    c < |s.procs| && s.procs[c].parent == Some(q) && s.procs[c].state == ZOMBIE
  }

  // Someone is about to wake init because he has given it his children.
  ghost predicate InitWillBeWoken(s: System) {
    s.lock.Some? && s.lock.value < |s.procs| && s.procs[s.lock.value].pc.WakingInit? && s.procs[s.lock.value].pc.j <= s.init
  }

  ghost predicate Nap(s: System, q: nat, c: nat)
    requires q < |s.procs|
  {
    ZombieChild(s, q, c) ==>
      && (Dozing(s, q) ==> q == s.init && InitWillBeWoken(s))
      && match s.procs[q].pc
         case Scanning(i, _) => i <= c
         case Deciding(_) => false
         case Drowsy => false
         case SleepHeld => false
         case _ => true
  }

  // A process that has woken its parent: the parent cannot doze off before wait_lock is free.
  ghost predicate Rouse(s: System, x: nat)
    requires x < |s.procs|
  {
    s.procs[x].parent.Some? && s.procs[x].parent.value < |s.procs| ==>
      var q := s.procs[x].parent.value;
      match s.procs[x].pc
      case WakingParent(j) => q < j ==> !Dozing(s, q)
      case Marking => !Dozing(s, q)
      case Marked => !Dozing(s, q)
      case _ => true
  }

  ghost predicate Making(s: System, p: nat, np: nat)
    requires p < |s.procs|
  {
    match s.procs[p].pc
    case Forking(n) => n == np
    case ForkLocked(n) => n == np
    case ForkNamed(n) => n == np
    case ForkReady(n) => n == np
    case _ => false
  }

  // init is always there, and nobody's child.
  ghost predicate Basics(s: System) {
    |s.procs| == 64 && s.init < 64 && Alive(s.procs[s.init].state) && s.procs[s.init].parent == None
  }

  ghost predicate AllLocal(s: System) { |s.procs| == 64 && forall p :: 0 <= p < 64 ==> Local(s, p) }

  ghost predicate AllKin(s: System) { |s.procs| == 64 && forall c :: 0 <= c < 64 ==> Kin(s, c) }

  ghost predicate AllNap(s: System) { |s.procs| == 64 && forall q, c :: 0 <= q < 64 && 0 <= c < 64 ==> Nap(s, q, c) }

  ghost predicate AllRouse(s: System) { |s.procs| == 64 && forall x :: 0 <= x < 64 ==> Rouse(s, x) }

  // No two forks make the same child.
  ghost predicate Forks(s: System) {
    |s.procs| == 64 && forall p, q, np :: 0 <= p < 64 && 0 <= q < 64 && Making(s, p, np) && Making(s, q, np) ==> p == q
  }

  ghost predicate Inv(s: System) { Basics(s) && AllLocal(s) && AllKin(s) && AllNap(s) && AllRouse(s) && Forks(s) }

  // The next step of the process is one of these two.
  ghost predicate Reaps(s: System, p: nat)
    requires p < |s.procs| == 64
  {
    s.procs[p].pc.Scanning? && s.procs[p].pc.i < 64 && Reapable(s, p, s.procs[p].pc.i)
  }

  ghost predicate Wakes(s: System, p: nat)
    requires p < |s.procs| == 64
  {
    (s.procs[p].pc.WakingInit? || s.procs[p].pc.WakingParent?) && s.procs[p].pc.j < 64
  }

  // ---- kwait finds a zombie ------------------------------------------------------------

  lemma ReapKeepsOwn(s: System, p: nat, i: nat)
    requires Inv(s) && CanAdvance(s, p) && s.procs[p].pc.Scanning? && s.procs[p].pc.i == i < 64 && Reapable(s, p, i)
    ensures Basics(Reap(s, p, i)) && Local(Reap(s, p, i), p)
  {
    hide AllKin;
    hide AllNap;
    hide AllRouse;
    hide Forks;
    assert Local(s, p) && Local(s, s.init);
  }

  lemma ReapKeepsPoints(s: System, p: nat, i: nat)
    requires Inv(s) && CanAdvance(s, p) && s.procs[p].pc.Scanning? && s.procs[p].pc.i == i < 64 && Reapable(s, p, i)
    ensures Basics(Reap(s, p, i)) && AllLocal(Reap(s, p, i)) && Forks(Reap(s, p, i))
  {
    hide AllKin;
    hide AllNap;
    hide AllRouse;
    var t := Reap(s, p, i);
    ReapKeepsOwn(s, p, i);
    assert Local(s, p);
    forall q | 0 <= q < 64 && q != p ensures Local(t, q) { assert Local(s, q); }
    forall a, n | 0 <= a < 64 && Making(t, a, n) ensures Making(s, a, n) {
    }
  }

  lemma ReapKeepsKin(s: System, p: nat, i: nat)
    requires Inv(s) && CanAdvance(s, p) && s.procs[p].pc.Scanning? && s.procs[p].pc.i == i < 64 && Reapable(s, p, i)
    ensures AllKin(Reap(s, p, i)) && AllRouse(Reap(s, p, i))
  {
    hide AllNap;
    hide Forks;
    hide ChildFits;
    var t := Reap(s, p, i);
    assert Local(s, p) && Local(s, s.init);
    forall c | 0 <= c < 64 ensures Kin(t, c) && Rouse(t, c) { assert Kin(s, c) && Rouse(s, c) && Local(s, c); }
  }

  lemma ReapKeepsNap(s: System, p: nat, i: nat)
    requires Inv(s) && CanAdvance(s, p) && s.procs[p].pc.Scanning? && s.procs[p].pc.i == i < 64 && Reapable(s, p, i)
    ensures AllNap(Reap(s, p, i))
  {
    hide Forks;
    hide ChildFits;
    var t := Reap(s, p, i);
    assert Local(s, p) && Rouse(s, p);
    forall q, c | 0 <= q < 64 && 0 <= c < 64 && ZombieChild(t, q, c) ensures Nap(t, q, c) {
      assert Nap(s, q, c) && Local(s, q) && Local(s, c) && Kin(s, c);
    }
  }

  // ---- the rest of kwait, and sleep ----------------------------------------------------

  lemma WaitKeepsInit(s: System, p: nat)
    requires Inv(s) && CanAdvance(s, p) && InWait(s.procs[p].pc) && !Reaps(s, p)
    ensures Basics(WaitStep(s, p))
  {
    hide AllLocal;
    hide AllKin;
    hide AllNap;
    hide AllRouse;
    hide Forks;
  }

  lemma WaitKeepsOwn(s: System, p: nat)
    requires Inv(s) && CanAdvance(s, p) && InWait(s.procs[p].pc) && !Reaps(s, p)
    ensures Basics(WaitStep(s, p)) && Local(WaitStep(s, p), p)
  {
    hide AllKin;
    hide AllNap;
    hide AllRouse;
    hide Forks;
    hide Basics;
    WaitKeepsInit(s, p);
    assert Local(s, p);
  }

  lemma WaitKeepsPoints(s: System, p: nat)
    requires Inv(s) && CanAdvance(s, p) && InWait(s.procs[p].pc) && !Reaps(s, p)
    ensures Basics(WaitStep(s, p)) && AllLocal(WaitStep(s, p))
  {
    hide AllKin;
    hide AllNap;
    hide AllRouse;
    hide Forks;
    hide Local;
    var t := WaitStep(s, p);
    WaitKeepsOwn(s, p);
    forall q | 0 <= q < 64 && q != p ensures Local(t, q) {
      assert Local(s, q) && Local(s, p);
      WaitLeaves(s, p, q);
    }
  }

  lemma WaitLeaves(s: System, p: nat, q: nat)
    requires |s.procs| == 64 && CanAdvance(s, p) && InWait(s.procs[p].pc) && !Reaps(s, p) && q < 64 && q != p
    requires Local(s, p) && Local(s, q)
    ensures Local(WaitStep(s, p), q)
  {
  }

  lemma WaitKeepsForks(s: System, p: nat)
    requires Inv(s) && CanAdvance(s, p) && InWait(s.procs[p].pc) && !Reaps(s, p)
    ensures Forks(WaitStep(s, p))
  {
    hide AllKin;
    hide AllNap;
    hide AllRouse;
    hide Local;
    var t := WaitStep(s, p);
    forall a, n | 0 <= a < 64 && Making(t, a, n) ensures Making(s, a, n) {
    }
  }

  lemma WaitKin(s: System, p: nat, c: nat)
    requires |s.procs| == 64 && CanAdvance(s, p) && InWait(s.procs[p].pc) && !Reaps(s, p) && c < 64
    requires Local(s, p) && Kin(s, c) && Local(s, c)
    ensures Kin(WaitStep(s, p), c)
  {
    hide ChildFits;
  }

  lemma WaitRouse(s: System, p: nat, c: nat)
    requires |s.procs| == 64 && CanAdvance(s, p) && InWait(s.procs[p].pc) && !Reaps(s, p) && c < 64
    requires Local(s, p) && Rouse(s, c) && Local(s, c) && Kin(s, c)
    ensures Rouse(WaitStep(s, p), c)
  {
    hide ChildFits;
  }

  lemma WaitKeepsKin(s: System, p: nat)
    requires Inv(s) && CanAdvance(s, p) && InWait(s.procs[p].pc) && !Reaps(s, p)
    ensures AllKin(WaitStep(s, p)) && AllRouse(WaitStep(s, p))
  {
    hide AllNap;
    hide Forks;
    hide Local;
    hide Kin;
    hide Rouse;
    assert Local(s, p) && Local(s, s.init);
    forall c | 0 <= c < 64 ensures Kin(WaitStep(s, p), c) && Rouse(WaitStep(s, p), c) {
      assert Kin(s, c) && Rouse(s, c) && Local(s, c);
      WaitKin(s, p, c);
      WaitRouse(s, p, c);
    }
  }

  lemma WaitNapOwn(s: System, p: nat, c: nat)
    requires |s.procs| == 64 && CanAdvance(s, p) && InWait(s.procs[p].pc) && !Reaps(s, p) && c < 64
    requires Local(s, p) && Rouse(s, p) && Nap(s, p, c) && Local(s, c) && Kin(s, c)
    ensures Nap(WaitStep(s, p), p, c)
  {
    hide ChildFits;
  }

  lemma WaitNapOther(s: System, p: nat, q: nat, c: nat)
    requires |s.procs| == 64 && CanAdvance(s, p) && InWait(s.procs[p].pc) && !Reaps(s, p) && q < 64 && c < 64 && q != p
    requires Local(s, p) && Rouse(s, p) && Nap(s, q, c) && Local(s, q) && Local(s, c) && Kin(s, c)
    ensures Nap(WaitStep(s, p), q, c)
  {
    hide ChildFits;
  }

  lemma WaitKeepsNap(s: System, p: nat)
    requires Inv(s) && CanAdvance(s, p) && InWait(s.procs[p].pc) && !Reaps(s, p)
    ensures AllNap(WaitStep(s, p))
  {
    hide Forks;
    hide Local;
    hide Kin;
    hide Rouse;
    hide Nap;
    assert Local(s, p) && Rouse(s, p);
    forall q, c | 0 <= q < 64 && 0 <= c < 64 ensures Nap(WaitStep(s, p), q, c) {
      assert Nap(s, q, c) && Local(s, q) && Local(s, c) && Kin(s, c);
      if q == p { WaitNapOwn(s, p, c); } else { WaitNapOther(s, p, q, c); }
    }
  }

  // ---- wakeup in kexit -----------------------------------------------------------------

  lemma WakeKeepsOwn(s: System, p: nat)
    requires Inv(s) && CanAdvance(s, p) && Wakes(s, p)
    ensures Basics(ExitStep(s, p)) && Local(ExitStep(s, p), p)
  {
    hide AllKin;
    hide AllNap;
    hide AllRouse;
    hide Forks;
    assert Local(s, p) && Local(s, s.init);
  }

  lemma WakeKeepsPoints(s: System, p: nat)
    requires Inv(s) && CanAdvance(s, p) && Wakes(s, p)
    ensures Basics(ExitStep(s, p)) && AllLocal(ExitStep(s, p))
  {
    hide AllKin;
    hide AllNap;
    hide AllRouse;
    var t := ExitStep(s, p);
    hide StateFits;
    hide ChildFits;
    WakeKeepsOwn(s, p);
    assert Local(s, p);
    forall q | 0 <= q < 64 && q != p ensures Local(t, q) {
      assert Local(s, q);
      WakeKeepsState(s, p, q);
      WakeKeepsChild(s, p, q);
    }
  }

  lemma WakeKeepsState(s: System, p: nat, q: nat)
    requires |s.procs| == 64 && CanAdvance(s, p) && Wakes(s, p) && q < 64 && q != p && StateFits(s.procs[q], q)
    ensures StateFits(ExitStep(s, p).procs[q], q)
  {
  }

  lemma WakeKeepsChild(s: System, p: nat, q: nat)
    requires |s.procs| == 64 && CanAdvance(s, p) && Wakes(s, p) && q < 64 && q != p && ChildFits(s, q)
    ensures ChildFits(ExitStep(s, p), q)
  {
    hide HoldsOwn;
  }

  lemma WakeKeepsForks(s: System, p: nat)
    requires Inv(s) && CanAdvance(s, p) && Wakes(s, p)
    ensures Forks(ExitStep(s, p))
  {
    hide AllKin;
    hide AllNap;
    hide AllRouse;
    hide Local;
    var t := ExitStep(s, p);
    forall a, n | 0 <= a < 64 && Making(t, a, n) ensures Making(s, a, n) {
    }
  }

  lemma WakeKeepsKin(s: System, p: nat)
    requires Inv(s) && CanAdvance(s, p) && Wakes(s, p)
    ensures AllKin(ExitStep(s, p)) && AllRouse(ExitStep(s, p))
  {
    hide AllNap;
    hide Forks;
    hide ChildFits;
    var t := ExitStep(s, p);
    assert Local(s, p) && Local(s, s.init);
    forall c | 0 <= c < 64 ensures Kin(t, c) && Rouse(t, c) { assert Kin(s, c) && Rouse(s, c) && Local(s, c); }
  }

  lemma WakeNapOwn(s: System, p: nat, c: nat)
    requires |s.procs| == 64 && CanAdvance(s, p) && Wakes(s, p) && c < 64
    requires Local(s, p) && Rouse(s, p) && Nap(s, p, c) && Local(s, c) && Kin(s, c)
    ensures Nap(ExitStep(s, p), p, c)
  {
    hide ChildFits;
  }

  lemma WakeNapOther(s: System, p: nat, q: nat, c: nat)
    requires |s.procs| == 64 && CanAdvance(s, p) && Wakes(s, p) && q < 64 && c < 64 && q != p
    requires Local(s, p) && Rouse(s, p) && Nap(s, q, c) && Local(s, q) && Local(s, c) && Kin(s, c)
    ensures Nap(ExitStep(s, p), q, c)
  {
    hide ChildFits;
  }

  lemma WakeKeepsNap(s: System, p: nat)
    requires Inv(s) && CanAdvance(s, p) && Wakes(s, p)
    ensures AllNap(ExitStep(s, p))
  {
    hide Forks;
    hide Local;
    hide Kin;
    hide Rouse;
    hide Nap;
    assert Local(s, p) && Rouse(s, p);
    forall q, c | 0 <= q < 64 && 0 <= c < 64 ensures Nap(ExitStep(s, p), q, c) {
      assert Nap(s, q, c) && Local(s, q) && Local(s, c) && Kin(s, c);
      if q == p { WakeNapOwn(s, p, c); } else { WakeNapOther(s, p, q, c); }
    }
  }

  // ---- the rest of kexit ---------------------------------------------------------------

  lemma ExitKeepsOwn(s: System, p: nat)
    requires Inv(s) && CanAdvance(s, p) && InExit(s.procs[p].pc) && !Wakes(s, p)
    ensures Basics(ExitStep(s, p)) && Local(ExitStep(s, p), p)
  {
    hide AllKin;
    hide AllNap;
    hide AllRouse;
    hide Forks;
    assert Local(s, p) && Local(s, s.init);
  }

  lemma ExitKeepsPoints(s: System, p: nat)
    requires Inv(s) && CanAdvance(s, p) && InExit(s.procs[p].pc) && !Wakes(s, p)
    ensures Basics(ExitStep(s, p)) && AllLocal(ExitStep(s, p))
  {
    hide AllKin;
    hide AllNap;
    hide AllRouse;
    hide Forks;
    hide Local;
    var t := ExitStep(s, p);
    ExitKeepsOwn(s, p);
    forall q | 0 <= q < 64 && q != p ensures Local(t, q) {
      assert Local(s, q) && Local(s, p);
      ExitLeaves(s, p, q);
    }
  }

  lemma ExitLeaves(s: System, p: nat, q: nat)
    requires |s.procs| == 64 && CanAdvance(s, p) && InExit(s.procs[p].pc) && !Wakes(s, p) && q < 64 && q != p
    requires Local(s, p) && Local(s, q)
    ensures Local(ExitStep(s, p), q)
  {
  }

  lemma ExitKeepsForks(s: System, p: nat)
    requires Inv(s) && CanAdvance(s, p) && InExit(s.procs[p].pc) && !Wakes(s, p)
    ensures Forks(ExitStep(s, p))
  {
    hide AllKin;
    hide AllNap;
    hide AllRouse;
    hide Local;
    var t := ExitStep(s, p);
    forall a, n | 0 <= a < 64 && Making(t, a, n) ensures Making(s, a, n) {
    }
  }

  lemma ExitKin(s: System, p: nat, c: nat)
    requires |s.procs| == 64 && CanAdvance(s, p) && InExit(s.procs[p].pc) && !Wakes(s, p) && !s.procs[p].pc.Reparenting? && c < 64
    requires Local(s, p) && Kin(s, c) && Local(s, c)
    requires Basics(s) && Local(s, s.init)
    ensures Kin(ExitStep(s, p), c)
  {
    hide ChildFits;
  }

  lemma ReparentKin(s: System, p: nat, c: nat)
    requires |s.procs| == 64 && CanAdvance(s, p) && InExit(s.procs[p].pc) && !Wakes(s, p) && s.procs[p].pc.Reparenting? && c < 64
    requires Local(s, p) && Kin(s, c) && Local(s, c)
    requires Basics(s) && Local(s, s.init)
    ensures Kin(ExitStep(s, p), c)
  {
    hide ChildFits;
  }

  lemma ExitRouse(s: System, p: nat, c: nat)
    requires |s.procs| == 64 && CanAdvance(s, p) && InExit(s.procs[p].pc) && !Wakes(s, p) && c < 64
    requires Local(s, p) && Rouse(s, c) && Local(s, c) && Kin(s, c)
    requires Basics(s) && Local(s, s.init)
    ensures Rouse(ExitStep(s, p), c)
  {
    hide ChildFits;
  }

  lemma ExitKeepsKin(s: System, p: nat)
    requires Inv(s) && CanAdvance(s, p) && InExit(s.procs[p].pc) && !Wakes(s, p)
    ensures AllKin(ExitStep(s, p)) && AllRouse(ExitStep(s, p))
  {
    hide AllNap;
    hide Forks;
    hide Local;
    hide Kin;
    hide Rouse;
    assert Local(s, p) && Local(s, s.init);
    forall c | 0 <= c < 64 ensures Kin(ExitStep(s, p), c) && Rouse(ExitStep(s, p), c) {
      assert Kin(s, c) && Rouse(s, c) && Local(s, c);
      if s.procs[p].pc.Reparenting? { ReparentKin(s, p, c); } else { ExitKin(s, p, c); }
      ExitRouse(s, p, c);
    }
  }

  lemma ExitNapOwn(s: System, p: nat, c: nat)
    requires |s.procs| == 64 && CanAdvance(s, p) && InExit(s.procs[p].pc) && !Wakes(s, p) && c < 64
    requires Local(s, p) && Rouse(s, p) && Nap(s, p, c) && Local(s, c) && Kin(s, c)
    ensures Nap(ExitStep(s, p), p, c)
  {
    hide ChildFits;
  }

  lemma ExitNapOther(s: System, p: nat, q: nat, c: nat)
    requires |s.procs| == 64 && CanAdvance(s, p) && InExit(s.procs[p].pc) && !Wakes(s, p) && q < 64 && c < 64 && q != p
    requires Local(s, p) && Rouse(s, p) && Nap(s, q, c) && Local(s, q) && Local(s, c) && Kin(s, c)
    ensures Nap(ExitStep(s, p), q, c)
  {
    hide ChildFits;
  }

  lemma ExitKeepsNap(s: System, p: nat)
    requires Inv(s) && CanAdvance(s, p) && InExit(s.procs[p].pc) && !Wakes(s, p)
    ensures AllNap(ExitStep(s, p))
  {
    hide Forks;
    hide Local;
    hide Kin;
    hide Rouse;
    hide Nap;
    assert Local(s, p) && Rouse(s, p);
    forall q, c | 0 <= q < 64 && 0 <= c < 64 ensures Nap(ExitStep(s, p), q, c) {
      assert Nap(s, q, c) && Local(s, q) && Local(s, c) && Kin(s, c);
      if q == p { ExitNapOwn(s, p, c); } else { ExitNapOther(s, p, q, c); }
    }
  }

  // ---- fork ----------------------------------------------------------------------------

  lemma ForkKeepsOwn(s: System, p: nat, np: nat)
    requires Inv(s) && CanAdvance(s, p) && Making(s, p, np)
    ensures Basics(ForkStep(s, p)) && Local(ForkStep(s, p), p)
  {
    hide AllKin;
    hide AllNap;
    hide AllRouse;
    hide Forks;
    assert Local(s, p) && Local(s, s.init);
  }

  lemma ForkKeepsPoints(s: System, p: nat, np: nat)
    requires Inv(s) && CanAdvance(s, p) && Making(s, p, np)
    ensures Basics(ForkStep(s, p)) && AllLocal(ForkStep(s, p)) && Forks(ForkStep(s, p))
  {
    hide AllKin;
    hide AllNap;
    hide AllRouse;
    var t := ForkStep(s, p);
    ForkKeepsOwn(s, p, np);
    assert Local(s, p);
    forall q | 0 <= q < 64 && q != p ensures Local(t, q) { assert Local(s, q) && (Making(s, q, np) ==> q == p); }
    forall a, n | 0 <= a < 64 && Making(t, a, n) ensures Making(s, a, n) {
    }
  }

  lemma ForkKeepsKin(s: System, p: nat, np: nat)
    requires Inv(s) && CanAdvance(s, p) && Making(s, p, np)
    ensures AllKin(ForkStep(s, p)) && AllRouse(ForkStep(s, p))
  {
    hide AllNap;
    hide Forks;
    var t := ForkStep(s, p);
    assert Local(s, p) && Local(s, s.init);
    forall c | 0 <= c < 64 ensures Kin(t, c) && Rouse(t, c) { assert Kin(s, c) && Rouse(s, c) && Local(s, c); }
  }

  lemma ForkKeepsNap(s: System, p: nat, np: nat)
    requires Inv(s) && CanAdvance(s, p) && Making(s, p, np)
    ensures AllNap(ForkStep(s, p))
  {
    hide Forks;
    hide ChildFits;
    var t := ForkStep(s, p);
    assert Local(s, p) && Rouse(s, p);
    forall q, c | 0 <= q < 64 && 0 <= c < 64 && ZombieChild(t, q, c) ensures Nap(t, q, c) {
      assert Nap(s, q, c) && Local(s, q) && Local(s, c) && Kin(s, c);
    }
  }

  // ---- allocproc -----------------------------------------------------------------------

  lemma AllocKeepsPoints(s: System, p: nat, np: nat)
    requires Inv(s) && Enabled(s, Alloc(p, np))
    ensures Basics(Do(s, Alloc(p, np))) && AllLocal(Do(s, Alloc(p, np))) && Forks(Do(s, Alloc(p, np)))
  {
    hide AllKin;
    hide AllNap;
    hide AllRouse;
    var t := Do(s, Alloc(p, np));
    assert Local(s, p) && Local(s, s.init);
    forall q | 0 <= q < 64 ensures Local(t, q) { assert Local(s, q); }
    forall a, n | 0 <= a < 64 && Making(t, a, n) ensures Making(s, a, n) || (a == p && n == np) {
    }
    forall a | 0 <= a < 64 ensures !Making(s, a, np) { assert Local(s, a); }
  }

  lemma AllocKeepsKin(s: System, p: nat, np: nat)
    requires Inv(s) && Enabled(s, Alloc(p, np))
    ensures AllKin(Do(s, Alloc(p, np))) && AllRouse(Do(s, Alloc(p, np)))
  {
    hide AllNap;
    hide Forks;
    hide ChildFits;
    var t := Do(s, Alloc(p, np));
    assert Local(s, p) && Local(s, s.init);
    forall c | 0 <= c < 64 ensures Kin(t, c) && Rouse(t, c) { assert Kin(s, c) && Rouse(s, c) && Local(s, c); }
  }

  lemma AllocKeepsNap(s: System, p: nat, np: nat)
    requires Inv(s) && Enabled(s, Alloc(p, np))
    ensures AllNap(Do(s, Alloc(p, np)))
  {
    hide Forks;
    hide ChildFits;
    var t := Do(s, Alloc(p, np));
    assert Local(s, p) && Rouse(s, p) && (s.lock.Some? && s.lock.value < 64 ==> Local(s, s.lock.value));
    forall q, c | 0 <= q < 64 && 0 <= c < 64 && ZombieChild(t, q, c) ensures Nap(t, q, c) {
      assert Nap(s, q, c) && Local(s, q) && Local(s, c) && Kin(s, c);
    }
  }

  // ---- entering exit and wait, leaving wait with an error, scheduling, kill ----------------

  ghost predicate Starts(step: Step, p: nat) { step == FailCopyout(p) || step == StartExit(p) || step == StartWait(p) }

  ghost predicate Switches(step: Step, p: nat) { step == Schedule(p) || step == Yield(p) }

  ghost predicate Stirs(step: Step, p: nat) { step == SleepElsewhere(p) || step == WakeElsewhere(p) || step == Kill(p) }

  lemma StartKeepsOwn(s: System, p: nat, step: Step)
    requires Inv(s) && Enabled(s, step) && Starts(step, p)
    ensures Basics(Do(s, step)) && Local(Do(s, step), p)
  {
    hide AllKin;
    hide AllNap;
    hide AllRouse;
    hide Forks;
    assert Local(s, p) && Local(s, s.init);
  }

  lemma StartKeepsPoints(s: System, p: nat, step: Step)
    requires Inv(s) && Enabled(s, step) && Starts(step, p)
    ensures Basics(Do(s, step)) && AllLocal(Do(s, step)) && Forks(Do(s, step))
  {
    hide AllKin;
    hide AllNap;
    hide AllRouse;
    var t := Do(s, step);
    StartKeepsOwn(s, p, step);
    assert Local(s, p);
    forall q | 0 <= q < 64 && q != p ensures Local(t, q) { assert Local(s, q); }
    forall a, n | 0 <= a < 64 && Making(t, a, n) ensures Making(s, a, n) {
    }
  }

  lemma StartKeepsKin(s: System, p: nat, step: Step)
    requires Inv(s) && Enabled(s, step) && Starts(step, p)
    ensures AllKin(Do(s, step)) && AllRouse(Do(s, step))
  {
    hide AllNap;
    hide Forks;
    hide ChildFits;
    var t := Do(s, step);
    assert Local(s, p) && Local(s, s.init);
    forall c | 0 <= c < 64 ensures Kin(t, c) && Rouse(t, c) { assert Kin(s, c) && Rouse(s, c) && Local(s, c); }
  }

  lemma StartKeepsNap(s: System, p: nat, step: Step)
    requires Inv(s) && Enabled(s, step) && Starts(step, p)
    ensures AllNap(Do(s, step))
  {
    hide Forks;
    hide ChildFits;
    var t := Do(s, step);
    assert Local(s, p) && Rouse(s, p);
    forall q, c | 0 <= q < 64 && 0 <= c < 64 && ZombieChild(t, q, c) ensures Nap(t, q, c) {
      assert Nap(s, q, c) && Local(s, q) && Local(s, c) && Kin(s, c);
    }
  }

  lemma SwitchKeepsOwn(s: System, p: nat, step: Step)
    requires Inv(s) && Enabled(s, step) && Switches(step, p)
    ensures Basics(Do(s, step)) && Local(Do(s, step), p)
  {
    hide AllKin;
    hide AllNap;
    hide AllRouse;
    hide Forks;
    assert Local(s, p) && Local(s, s.init);
  }

  lemma SwitchKeepsPoints(s: System, p: nat, step: Step)
    requires Inv(s) && Enabled(s, step) && Switches(step, p)
    ensures Basics(Do(s, step)) && AllLocal(Do(s, step)) && Forks(Do(s, step))
  {
    hide AllKin;
    hide AllNap;
    hide AllRouse;
    var t := Do(s, step);
    SwitchKeepsOwn(s, p, step);
    assert Local(s, p);
    forall q | 0 <= q < 64 && q != p ensures Local(t, q) { assert Local(s, q); }
    forall a, n | 0 <= a < 64 && Making(t, a, n) ensures Making(s, a, n) {
    }
  }

  lemma SwitchKeepsKin(s: System, p: nat, step: Step)
    requires Inv(s) && Enabled(s, step) && Switches(step, p)
    ensures AllKin(Do(s, step)) && AllRouse(Do(s, step))
  {
    hide AllNap;
    hide Forks;
    hide ChildFits;
    var t := Do(s, step);
    assert Local(s, p) && Local(s, s.init);
    forall c | 0 <= c < 64 ensures Kin(t, c) && Rouse(t, c) { assert Kin(s, c) && Rouse(s, c) && Local(s, c); }
  }

  lemma SwitchNapOwn(s: System, p: nat, step: Step, c: nat)
    requires |s.procs| == 64 && Enabled(s, step) && Switches(step, p) && c < 64
    requires Local(s, p) && Rouse(s, p) && Nap(s, p, c) && Local(s, c) && Kin(s, c)
    ensures Nap(Do(s, step), p, c)
  {
    hide ChildFits;
  }

  lemma SwitchNapOther(s: System, p: nat, step: Step, q: nat, c: nat)
    requires |s.procs| == 64 && Enabled(s, step) && Switches(step, p) && q < 64 && c < 64 && q != p
    requires Local(s, p) && Rouse(s, p) && Nap(s, q, c) && Local(s, q) && Local(s, c) && Kin(s, c)
    ensures Nap(Do(s, step), q, c)
  {
    hide ChildFits;
  }

  lemma SwitchKeepsNap(s: System, p: nat, step: Step)
    requires Inv(s) && Enabled(s, step) && Switches(step, p)
    ensures AllNap(Do(s, step))
  {
    hide Forks;
    hide Local;
    hide Kin;
    hide Rouse;
    hide Nap;
    assert Local(s, p) && Rouse(s, p);
    forall q, c | 0 <= q < 64 && 0 <= c < 64 ensures Nap(Do(s, step), q, c) {
      assert Nap(s, q, c) && Local(s, q) && Local(s, c) && Kin(s, c);
      if q == p { SwitchNapOwn(s, p, step, c); } else { SwitchNapOther(s, p, step, q, c); }
    }
  }

  lemma StirKeepsOwn(s: System, p: nat, step: Step)
    requires Inv(s) && Enabled(s, step) && Stirs(step, p)
    ensures Basics(Do(s, step)) && Local(Do(s, step), p)
  {
    hide AllKin;
    hide AllNap;
    hide AllRouse;
    hide Forks;
    assert Local(s, p) && Local(s, s.init);
  }

  lemma StirKeepsPoints(s: System, p: nat, step: Step)
    requires Inv(s) && Enabled(s, step) && Stirs(step, p)
    ensures Basics(Do(s, step)) && AllLocal(Do(s, step)) && Forks(Do(s, step))
  {
    hide AllKin;
    hide AllNap;
    hide AllRouse;
    var t := Do(s, step);
    StirKeepsOwn(s, p, step);
    assert Local(s, p);
    forall q | 0 <= q < 64 && q != p ensures Local(t, q) { assert Local(s, q); }
    forall a, n | 0 <= a < 64 && Making(t, a, n) ensures Making(s, a, n) {
    }
  }

  lemma StirKeepsKin(s: System, p: nat, step: Step)
    requires Inv(s) && Enabled(s, step) && Stirs(step, p)
    ensures AllKin(Do(s, step)) && AllRouse(Do(s, step))
  {
    hide AllNap;
    hide Forks;
    hide ChildFits;
    var t := Do(s, step);
    assert Local(s, p) && Local(s, s.init);
    forall c | 0 <= c < 64 ensures Kin(t, c) && Rouse(t, c) { assert Kin(s, c) && Rouse(s, c) && Local(s, c); }
  }

  lemma StirKeepsNap(s: System, p: nat, step: Step)
    requires Inv(s) && Enabled(s, step) && Stirs(step, p)
    ensures AllNap(Do(s, step))
  {
    hide Forks;
    hide ChildFits;
    var t := Do(s, step);
    assert Local(s, p) && Rouse(s, p);
    forall q, c | 0 <= q < 64 && 0 <= c < 64 && ZombieChild(t, q, c) ensures Nap(t, q, c) {
      assert Nap(s, q, c) && Local(s, q) && Local(s, c) && Kin(s, c);
    }
  }
}
