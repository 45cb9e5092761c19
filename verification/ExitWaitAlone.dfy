/** kexit and kwait as methods and as steps are the same thing: a process whose steps nobody
    interrupts does to the table exactly what the methods do. */
module ExitWaitAlone {
  import opened Options
  import opened ExitWait
  import opened ExitWaitCode

  // p takes n steps of its own, with nobody in between.
  ghost predicate Reaches(s: System, p: nat, n: nat, t: System)
    decreases n
  {
    if n == 0 then s == t else Enabled(s, Advance(p)) && Reaches(Do(s, Advance(p)), p, n - 1, t)
  }

  ghost predicate Comes(s: System, p: nat, t: System) { exists n :: Reaches(s, p, n, t) }

  lemma {:induction false} ReachesOn(s: System, p: nat, n: nat, t: System, m: nat, u: System)
    requires Reaches(s, p, n, t) && Reaches(t, p, m, u)
    ensures Reaches(s, p, n + m, u)
    decreases n
  {
    hide Enabled;
    hide Do;
    if n > 0 { ReachesOn(Do(s, Advance(p)), p, n - 1, t, m, u); }
  }

  lemma ComesOn(s: System, p: nat, t: System, u: System)
    requires Comes(s, p, t) && Comes(t, p, u)
    ensures Comes(s, p, u)
  {
    hide Reaches;
    var n :| Reaches(s, p, n, t);
    var m :| Reaches(t, p, m, u);
    ReachesOn(s, p, n, t, m, u);
  }

  lemma ComesStep(s: System, p: nat, t: System)
    requires Enabled(s, Advance(p)) && t == Do(s, Advance(p))
    ensures Comes(s, p, t)
  {
    hide Enabled;
    hide Do;
    assert Reaches(t, p, 0, t);
    assert Reaches(s, p, 1, t);
  }

  // p runs, and no other process holds its own lock.
  ghost predicate Alone(s: System, procs: seq<Proc>, p: nat) {
    && |procs| == 64 && p < 64 && s.init < 64 && procs[p].state == RUNNING
    && forall j :: 0 <= j < 64 && j != p ==> !HoldsOwn(procs[j].pc)
  }

  // The system with this table, and p at this point.
  ghost function At(s: System, procs: seq<Proc>, p: nat, pc: Pc): System
    requires p < |procs|
  {
    s.(procs := procs[p := procs[p].(pc := pc)])
  }

  // ---- wakeup, step by step ----------------------------------------------------------------

  ghost function WakeAt(procs: seq<Proc>, p: nat, chan: Chan, j: nat): (r: seq<Proc>)
    requires j < |procs|
    ensures |r| == |procs|
  {
    if j != p && procs[j].state == SLEEPING && procs[j].chan == chan then procs[j := procs[j].(state := RUNNABLE)] else procs
  }

  // Entries from j on woken.
  ghost function WokenFrom(procs: seq<Proc>, p: nat, chan: Chan, j: nat): (r: seq<Proc>)
    ensures |r| == |procs|
  {
    seq(|procs|, k requires 0 <= k < |procs| => if k < j then procs[k] else Woken(procs, p, chan)[k])
  }

  lemma WakeRest(procs: seq<Proc>, p: nat, chan: Chan, j: nat)
    requires j < |procs|
    ensures WokenFrom(WakeAt(procs, p, chan, j), p, chan, j + 1) == WokenFrom(procs, p, chan, j)
  {
    var at := WakeAt(procs, p, chan, j);
    var a, b := WokenFrom(at, p, chan, j + 1), WokenFrom(procs, p, chan, j);
    assert at[j] == Woken(procs, p, chan)[j];
    forall k | 0 <= k < |procs| ensures a[k] == b[k] {
      if k < j {
        assert a[k] == at[k] == procs[k] == b[k];
      } else if k == j {
        assert a[k] == at[k];
      } else {
        assert at[k] == procs[k];
        assert a[k] == Woken(at, p, chan)[k] == Woken(procs, p, chan)[k];
      }
    }
  }

  lemma WakeEnds(procs: seq<Proc>, p: nat, chan: Chan)
    ensures WokenFrom(procs, p, chan, |procs|) == procs && WokenFrom(procs, p, chan, 0) == Woken(procs, p, chan)
  {
  }

  lemma WakeAtAlone(s: System, procs: seq<Proc>, p: nat, chan: Chan, j: nat)
    requires Alone(s, procs, p) && j < 64
    ensures Alone(s, WakeAt(procs, p, chan, j), p) && WakeAt(procs, p, chan, j)[p] == procs[p]
  {
  }

  lemma ParentStep(s: System, procs: seq<Proc>, p: nat, q: nat, j: nat)
    requires Alone(s, procs, p) && procs[p].parent == Some(q)
    ensures Enabled(At(s, procs, p, WakingParent(j)), Advance(p))
    ensures j < 64 ==> Do(At(s, procs, p, WakingParent(j)), Advance(p)) == At(s, WakeAt(procs, p, OnProc(q), j), p, WakingParent(j + 1))
    ensures j >= 64 ==> Do(At(s, procs, p, WakingParent(j)), Advance(p)) == At(s, procs, p, Marking)
  {
  }

  // The loop of wakeup(p->parent).
  lemma {:induction false} ParentLoop(s: System, procs: seq<Proc>, p: nat, q: nat, j: nat)
    requires Alone(s, procs, p) && procs[p].parent == Some(q) && j <= 64
    ensures Comes(At(s, procs, p, WakingParent(j)), p, At(s, WokenFrom(procs, p, OnProc(q), j), p, Marking))
    decreases 64 - j
  {
    hide Enabled;
    hide Do;
    hide Comes;
    hide Woken;
    ParentStep(s, procs, p, q, j);
    if j == 64 {
      WakeEnds(procs, p, OnProc(q));
      ComesStep(At(s, procs, p, WakingParent(j)), p, At(s, procs, p, Marking));
    } else {
      var next := WakeAt(procs, p, OnProc(q), j);
      WakeAtAlone(s, procs, p, OnProc(q), j);
      WakeRest(procs, p, OnProc(q), j);
      ComesStep(At(s, procs, p, WakingParent(j)), p, At(s, next, p, WakingParent(j + 1)));
      ParentLoop(s, next, p, q, j + 1);
      ComesOn(At(s, procs, p, WakingParent(j)), p, At(s, next, p, WakingParent(j + 1)), At(s, WokenFrom(procs, p, OnProc(q), j), p, Marking));
    }
  }

  lemma InitStep(s: System, procs: seq<Proc>, p: nat, i: nat, j: nat)
    requires Alone(s, procs, p)
    ensures Enabled(At(s, procs, p, WakingInit(i, j)), Advance(p))
    ensures j < 64 ==> Do(At(s, procs, p, WakingInit(i, j)), Advance(p)) == At(s, WakeAt(procs, p, OnProc(s.init), j), p, WakingInit(i, j + 1))
    ensures j >= 64 ==> Do(At(s, procs, p, WakingInit(i, j)), Advance(p)) == At(s, procs, p, Reparenting(i + 1))
  {
  }

  // The loop of wakeup(initproc) in reparent.
  lemma {:induction false} InitLoop(s: System, procs: seq<Proc>, p: nat, i: nat, j: nat)
    requires Alone(s, procs, p) && j <= 64
    ensures Comes(At(s, procs, p, WakingInit(i, j)), p, At(s, WokenFrom(procs, p, OnProc(s.init), j), p, Reparenting(i + 1)))
    decreases 64 - j
  {
    hide Enabled;
    hide Do;
    hide Comes;
    hide Woken;
    var chan := OnProc(s.init);
    InitStep(s, procs, p, i, j);
    if j == 64 {
      WakeEnds(procs, p, chan);
      ComesStep(At(s, procs, p, WakingInit(i, j)), p, At(s, procs, p, Reparenting(i + 1)));
    } else {
      var next := WakeAt(procs, p, chan, j);
      WakeAtAlone(s, procs, p, chan, j);
      WakeRest(procs, p, chan, j);
      ComesStep(At(s, procs, p, WakingInit(i, j)), p, At(s, next, p, WakingInit(i, j + 1)));
      InitLoop(s, next, p, i, j + 1);
      ComesOn(At(s, procs, p, WakingInit(i, j)), p, At(s, next, p, WakingInit(i, j + 1)), At(s, WokenFrom(procs, p, chan, j), p, Reparenting(i + 1)));
    }
  }

  // ---- reparent, step by step --------------------------------------------------------------

  // reparent's loop from entry i on.
  ghost function ReparentFrom(procs: seq<Proc>, p: nat, init: nat, i: nat): (r: seq<Proc>)
    ensures |r| == |procs|
    decreases |procs| - i
  {
    if i >= |procs| then procs
    else if procs[i].parent == Some(p) then ReparentFrom(Woken(procs[i := procs[i].(parent := Some(init))], p, OnProc(init)), p, init, i + 1)
    else ReparentFrom(procs, p, init, i + 1)
  }

  // The table after i entries.
  ghost function Halfway(procs: seq<Proc>, p: nat, init: nat, i: nat): (r: seq<Proc>)
    requires i <= |procs|
    ensures |r| == |procs|
  {
    if HasChild(procs[..i], p) then Woken(AdoptedUpto(procs, p, init, i), p, OnProc(init)) else procs
  }

  ghost function AdoptedUpto(procs: seq<Proc>, p: nat, init: nat, i: nat): (r: seq<Proc>)
    ensures |r| == |procs|
  {
    seq(|procs|, j requires 0 <= j < |procs| =>
          if j < i && procs[j].parent == Some(p) then procs[j].(parent := Some(init)) else procs[j])
  }

  lemma HasChildUpto(procs: seq<Proc>, p: nat, i: nat)
    requires i < |procs|
    ensures HasChild(procs[..i + 1], p) <==> HasChild(procs[..i], p) || procs[i].parent == Some(p)
  {
    if HasChild(procs[..i], p) {
      var j :| 0 <= j < i && procs[..i][j].parent == Some(p);
      assert procs[..i + 1][j].parent == Some(p);
    }
    if procs[i].parent == Some(p) { assert procs[..i + 1][i].parent == Some(p); }
    if HasChild(procs[..i + 1], p) {
      var j :| 0 <= j < i + 1 && procs[..i + 1][j].parent == Some(p);
      if j < i { assert procs[..i][j].parent == Some(p); }
    }
  }

  lemma NoneAdopted(procs: seq<Proc>, p: nat, init: nat, i: nat)
    requires i <= |procs| && !HasChild(procs[..i], p)
    ensures AdoptedUpto(procs, p, init, i) == procs
  {
    forall j | 0 <= j < i ensures procs[j].parent != Some(p) { assert procs[..i][j] == procs[j]; }
  }

  lemma HalfwayOn(procs: seq<Proc>, p: nat, init: nat, i: nat)
    requires i < |procs| && p != init
    ensures var h := Halfway(procs, p, init, i);
            && h[i].parent == procs[i].parent
            && Halfway(procs, p, init, i + 1) == if procs[i].parent == Some(p) then Woken(h[i := h[i].(parent := Some(init))], p, OnProc(init)) else h
  {
    hide HasChild;
    HasChildUpto(procs, p, i);
    if !HasChild(procs[..i], p) { NoneAdopted(procs, p, init, i); }
    var a, b := AdoptedUpto(procs, p, init, i), AdoptedUpto(procs, p, init, i + 1);
    assert b == if procs[i].parent == Some(p) then a[i := a[i].(parent := Some(init))] else a;
  }

  lemma {:induction false} ReparentIs(procs: seq<Proc>, p: nat, init: nat, i: nat)
    requires i <= |procs| && p != init
    ensures ReparentFrom(Halfway(procs, p, init, i), p, init, i) == Reparented(procs, p, init)
    decreases |procs| - i
  {
    hide Woken;
    hide HasChild;
    if i == |procs| {
      assert procs[..i] == procs;
      assert AdoptedUpto(procs, p, init, i) == Adopted(procs, p, init);
    } else {
      HalfwayOn(procs, p, init, i);
      ReparentIs(procs, p, init, i + 1);
    }
  }

  lemma AdoptStep(s: System, procs: seq<Proc>, p: nat, i: nat)
    requires Alone(s, procs, p)
    ensures Enabled(At(s, procs, p, Reparenting(i)), Advance(p))
    ensures var t := Do(At(s, procs, p, Reparenting(i)), Advance(p));
            t == if i >= 64 then At(s, procs, p, WakingParent(0))
                 else if procs[i].parent == Some(p) then At(s, procs[i := procs[i].(parent := Some(s.init))], p, WakingInit(i, 0))
                 else At(s, procs, p, Reparenting(i + 1))
  {
  }

  lemma AdoptAlone(s: System, procs: seq<Proc>, p: nat, i: nat)
    requires Alone(s, procs, p) && i < 64
    ensures Alone(s, procs[i := procs[i].(parent := Some(s.init))], p)
    ensures Alone(s, Woken(procs[i := procs[i].(parent := Some(s.init))], p, OnProc(s.init)), p)
  {
  }

  lemma {:induction false} ReparentLoop(s: System, procs: seq<Proc>, p: nat, i: nat)
    requires Alone(s, procs, p) && i <= 64
    ensures Alone(s, ReparentFrom(procs, p, s.init, i), p)
    ensures Comes(At(s, procs, p, Reparenting(i)), p, At(s, ReparentFrom(procs, p, s.init, i), p, WakingParent(0)))
    decreases 64 - i
  {
    hide Enabled;
    hide Do;
    hide Comes;
    hide Woken;
    hide HoldsOwn;
    AdoptStep(s, procs, p, i);
    var end := At(s, ReparentFrom(procs, p, s.init, i), p, WakingParent(0));
    if i == 64 {
      ComesStep(At(s, procs, p, Reparenting(i)), p, end);
    } else if procs[i].parent == Some(p) {
      var given := procs[i := procs[i].(parent := Some(s.init))];
      var next := Woken(given, p, OnProc(s.init));
      AdoptAlone(s, procs, p, i);
      ComesStep(At(s, procs, p, Reparenting(i)), p, At(s, given, p, WakingInit(i, 0)));
      InitLoop(s, given, p, i, 0);
      WakeEnds(given, p, OnProc(s.init));
      ComesOn(At(s, procs, p, Reparenting(i)), p, At(s, given, p, WakingInit(i, 0)), At(s, next, p, Reparenting(i + 1)));
      ReparentLoop(s, next, p, i + 1);
      ComesOn(At(s, procs, p, Reparenting(i)), p, At(s, next, p, Reparenting(i + 1)), end);
    } else {
      ComesStep(At(s, procs, p, Reparenting(i)), p, At(s, procs, p, Reparenting(i + 1)));
      ReparentLoop(s, procs, p, i + 1);
      ComesOn(At(s, procs, p, Reparenting(i)), p, At(s, procs, p, Reparenting(i + 1)), end);
    }
  }

  // ---- exit --------------------------------------------------------------------------------

  lemma ExitStarts(s: System, p: nat)
    requires Alone(s, s.procs, p) && s.procs[p].pc == Exiting && s.lock == None
    ensures Comes(s, p, At(s.(lock := Some(p)), s.procs, p, Reparenting(0)))
  {
    hide Comes;
    ComesStep(s, p, At(s.(lock := Some(p)), s.procs, p, Reparenting(0)));
  }

  lemma MarkStep(s: System, procs: seq<Proc>, p: nat)
    requires Alone(s, procs, p)
    ensures Comes(At(s, procs, p, Marking), p,
                  At(s.(exited := s.exited + {procs[p].pid}), procs[p := procs[p].(state := ZOMBIE)], p, Marked))
  {
    hide Comes;
    var t := At(s.(exited := s.exited + {procs[p].pid}), procs[p := procs[p].(state := ZOMBIE)], p, Marked);
    assert Do(At(s, procs, p, Marking), Advance(p)).procs == t.procs;
    ComesStep(At(s, procs, p, Marking), p, t);
  }

  lemma WokenAlone(s: System, procs: seq<Proc>, p: nat, chan: Chan)
    requires Alone(s, procs, p)
    ensures Alone(s, Woken(procs, p, chan), p) && Woken(procs, p, chan)[p] == procs[p]
  {
  }

  // reparent leaves p itself alone, when it is not its own child.
  lemma ReparentedSelf(procs: seq<Proc>, p: nat, init: nat)
    requires p < |procs| && procs[p].parent != Some(p)
    ensures Reparented(procs, p, init)[p] == procs[p]
  {
  }

  // kexit up to the point where it holds both locks and is a zombie.
  lemma KexitMarks(s: System, p: nat)
    requires Alone(s, s.procs, p) && s.procs[p].pc == Exiting && s.lock == None
    requires p != s.init && s.procs[p].parent.Some? && s.procs[p].parent != Some(p)
    ensures Comes(s, p, At(s.(lock := Some(p), exited := s.exited + {s.procs[p].pid}), Exited(s.procs, p, s.init), p, Marked))
  {
    hide Comes;
    hide Woken;
    hide HasChild;
    hide HoldsOwn;
    hide Reparented;
    var u, q := s.(lock := Some(p)), s.procs[p].parent.value;
    var r := Reparented(s.procs, p, s.init);
    var w := Woken(r, p, OnProc(q));
    ExitStarts(s, p);
    ReparentLoop(u, s.procs, p, 0);
    StartsHalfway(s.procs, p, s.init);
    ReparentIs(s.procs, p, s.init, 0);
    ReparentedSelf(s.procs, p, s.init);
    ComesOn(s, p, At(u, s.procs, p, Reparenting(0)), At(u, r, p, WakingParent(0)));
    ParentLoop(u, r, p, q, 0);
    WakeEnds(r, p, OnProc(q));
    ComesOn(s, p, At(u, r, p, WakingParent(0)), At(u, w, p, Marking));
    WokenAlone(u, r, p, OnProc(q));
    MarkStep(u, w, p);
    ComesOn(s, p, At(u, w, p, Marking), At(u.(exited := u.exited + {s.procs[p].pid}), w[p := w[p].(state := ZOMBIE)], p, Marked));
  }

  lemma MarkedLeaves(s: System, procs: seq<Proc>, p: nat)
    requires |procs| == 64 && p < 64 && s.init < 64
    ensures Comes(At(s.(lock := Some(p)), procs, p, Marked), p, At(s.(lock := None), procs, p, Dead))
  {
    hide Comes;
    var a, b, c := At(s.(lock := Some(p)), procs, p, Marked), At(s.(lock := None), procs, p, Leaving), At(s.(lock := None), procs, p, Dead);
    ComesStep(a, p, b);
    ComesStep(b, p, c);
    ComesOn(a, p, b, c);
  }

  /** The steps of kexit, uninterrupted, do to the table what the method Kexit does, and then leave
      wait_lock free and the process off the processor for good. */
  lemma KexitAlone(s: System, p: nat)
    requires Alone(s, s.procs, p) && s.procs[p].pc == Exiting && s.lock == None
    requires p != s.init && s.procs[p].parent.Some? && s.procs[p].parent != Some(p)
    ensures Comes(s, p, At(s.(exited := s.exited + {s.procs[p].pid}), Exited(s.procs, p, s.init), p, Dead))
  {
    hide Comes;
    hide Exited;
    hide HoldsOwn;
    KexitMarks(s, p);
    var u, procs := s.(exited := s.exited + {s.procs[p].pid}), Exited(s.procs, p, s.init);
    MarkedLeaves(u, procs, p);
    assert u.(lock := None) == u && u.(lock := Some(p)) == s.(lock := Some(p), exited := s.exited + {s.procs[p].pid});
    ComesOn(s, p, At(u.(lock := Some(p)), procs, p, Marked), At(u, procs, p, Dead));
  }

  lemma StartsHalfway(procs: seq<Proc>, p: nat, init: nat)
    ensures Halfway(procs, p, init, 0) == procs
  {
    assert !HasChild(procs[..0], p);
  }

  // ---- wait --------------------------------------------------------------------------------

  lemma ScanStep(s: System, procs: seq<Proc>, p: nat, i: nat, kids: bool)
    requires Alone(s, procs, p) && procs[p].parent != Some(p)
    ensures Enabled(At(s, procs, p, Scanning(i, kids)), Advance(p))
    ensures var t := Do(At(s, procs, p, Scanning(i, kids)), Advance(p));
            && (i >= 64 ==> t == At(s, procs, p, Deciding(kids)))
            && (i < 64 && procs[i].parent != Some(p) ==> t == At(s, procs, p, Scanning(i + 1, kids)))
            && (i < 64 && procs[i].parent == Some(p) && procs[i].state != ZOMBIE ==> t == At(s, procs, p, Scanning(i + 1, true)))
            && (i < 64 && procs[i].parent == Some(p) && procs[i].state == ZOMBIE ==>
                  t == At(s.(lock := None, reaped := s.reaped + {procs[i].pid}), procs[i := FreeProc], p, Other))
  {
  }

  // Where kwait's scan ends, with everything it has changed.
  ghost function Scanned(s: System, procs: seq<Proc>, p: nat, i: nat, kids: bool): System
    requires |procs| == 64 && p < 64 && i <= 64
  {
    var z := FirstZombie(procs, p, i);
    if z < 64 then At(s.(lock := None, reaped := s.reaped + {procs[z].pid}), procs[z := FreeProc], p, Other)
    else At(s, procs, p, Deciding(kids || HasChild(procs[i..], p)))
  }

  lemma HasChildFrom(procs: seq<Proc>, p: nat, i: nat)
    requires i < |procs|
    ensures HasChild(procs[i..], p) <==> procs[i].parent == Some(p) || HasChild(procs[i + 1..], p)
  {
    if procs[i].parent == Some(p) { assert procs[i..][0].parent == Some(p); }
    if HasChild(procs[i + 1..], p) {
      var j :| 0 <= j < |procs[i + 1..]| && procs[i + 1..][j].parent == Some(p);
      assert procs[i..][j + 1].parent == Some(p);
    }
    if HasChild(procs[i..], p) {
      var j :| 0 <= j < |procs[i..]| && procs[i..][j].parent == Some(p);
      if j > 0 { assert procs[i + 1..][j - 1].parent == Some(p); }
    }
  }

  lemma {:induction false} ScanLoop(s: System, procs: seq<Proc>, p: nat, i: nat, kids: bool)
    requires Alone(s, procs, p) && procs[p].parent != Some(p) && i <= 64
    ensures Comes(At(s, procs, p, Scanning(i, kids)), p, Scanned(s, procs, p, i, kids))
    decreases 64 - i
  {
    hide Enabled;
    hide Do;
    hide Comes;
    hide HoldsOwn;
    hide HasChild;
    var here, end := At(s, procs, p, Scanning(i, kids)), Scanned(s, procs, p, i, kids);
    ScanStep(s, procs, p, i, kids);
    if i == 64 {
      assert !HasChild(procs[64..], p) by { NoChildLeft(procs, p); }
      ComesStep(here, p, end);
    } else {
      HasChildFrom(procs, p, i);
      var mine := procs[i].parent == Some(p);
      if mine && procs[i].state == ZOMBIE {
        ComesStep(here, p, end);
      } else {
        var next := At(s, procs, p, Scanning(i + 1, kids || mine));
        ComesStep(here, p, next);
        ScanLoop(s, procs, p, i + 1, kids || mine);
        ComesOn(here, p, next, end);
      }
    }
  }

  lemma NoChildLeft(procs: seq<Proc>, p: nat)
    requires |procs| == 64
    ensures !HasChild(procs[64..], p)
  {
  }

  // One pass of kwait's scan.
  lemma KwaitScans(s: System, p: nat)
    requires Alone(s, s.procs, p) && s.procs[p].pc == WaitWanting && s.lock == None && s.procs[p].parent != Some(p)
    ensures var z := FirstZombie(s.procs, p, 0);
            Comes(s, p, if z < 64 then At(s.(reaped := s.reaped + {s.procs[z].pid}), s.procs[z := FreeProc], p, Other)
                        else At(s.(lock := Some(p)), s.procs, p, Deciding(HasChild(s.procs, p))))
  {
    hide Comes;
    hide HoldsOwn;
    hide HasChild;
    var u := s.(lock := Some(p));
    ComesStep(s, p, At(u, s.procs, p, Scanning(0, false)));
    ScanLoop(u, s.procs, p, 0, false);
    assert s.procs[0..] == s.procs;
    ComesOn(s, p, At(u, s.procs, p, Scanning(0, false)), Scanned(u, s.procs, p, 0, false));
    var z := FirstZombie(s.procs, p, 0);
    if z < 64 { assert u.(lock := None, reaped := u.reaped + {s.procs[z].pid}) == s.(reaped := s.reaped + {s.procs[z].pid}); }
  }

  // kwait after a scan that has found no zombie: it returns, or sleeps with wait_lock released.
  lemma DecidingEnds(s: System, procs: seq<Proc>, p: nat, kids: bool)
    requires Alone(s, procs, p)
    ensures !kids || procs[p].killed ==>
              Comes(At(s.(lock := Some(p)), procs, p, Deciding(kids)), p, At(s.(lock := None), procs, p, Other))
    ensures kids && !procs[p].killed ==>
              Comes(At(s.(lock := Some(p)), procs, p, Deciding(kids)), p, At(s.(lock := Some(p)), procs, p, Drowsy))
  {
    hide Comes;
    hide HoldsOwn;
    var a := At(s.(lock := Some(p)), procs, p, Deciding(kids));
    ComesStep(a, p, if !kids || procs[p].killed then At(s.(lock := None), procs, p, Other) else At(s.(lock := Some(p)), procs, p, Drowsy));
  }

  lemma DrowsyMarks(s: System, procs: seq<Proc>, p: nat)
    requires Alone(s, procs, p)
    ensures Comes(At(s.(lock := Some(p)), procs, p, Drowsy), p, At(s.(lock := None), procs, p, SleepMark))
  {
    hide Comes;
    hide HoldsOwn;
    var u, v := s.(lock := Some(p)), s.(lock := None);
    ComesStep(At(u, procs, p, Drowsy), p, At(u, procs, p, SleepHeld));
    ComesStep(At(u, procs, p, SleepHeld), p, At(v, procs, p, SleepMark));
    ComesOn(At(u, procs, p, Drowsy), p, At(u, procs, p, SleepHeld), At(v, procs, p, SleepMark));
  }

  lemma MarkSleeps(s: System, procs: seq<Proc>, p: nat)
    requires Alone(s, procs, p)
    ensures Comes(At(s, procs, p, SleepMark), p, At(s, procs[p := procs[p].(chan := OnProc(p), state := SLEEPING)], p, Asleep))
  {
    hide Comes;
    hide HoldsOwn;
    var down := procs[p := procs[p].(chan := OnProc(p), state := SLEEPING)];
    ComesStep(At(s, procs, p, SleepMark), p, At(s, down, p, SleepSwitch));
    ComesStep(At(s, down, p, SleepSwitch), p, At(s, down, p, Asleep));
    ComesOn(At(s, procs, p, SleepMark), p, At(s, down, p, SleepSwitch), At(s, down, p, Asleep));
  }

  lemma DrowsySleeps(s: System, procs: seq<Proc>, p: nat)
    requires Alone(s, procs, p)
    ensures Comes(At(s.(lock := Some(p)), procs, p, Drowsy), p,
                  At(s.(lock := None), procs[p := procs[p].(chan := OnProc(p), state := SLEEPING)], p, Asleep))
  {
    hide Comes;
    hide HoldsOwn;
    hide At;
    var v, down := s.(lock := None), procs[p := procs[p].(chan := OnProc(p), state := SLEEPING)];
    DrowsyMarks(s, procs, p);
    MarkSleeps(v, procs, p);
    ComesOn(At(s.(lock := Some(p)), procs, p, Drowsy), p, At(v, procs, p, SleepMark), At(v, down, p, Asleep));
  }

  /** The steps of one pass of kwait, uninterrupted and with copyout succeeding, do to the table what
      the method Kwait does. The first zombie child is reaped; without one, the call ends when there
      are no children or the process has been killed, and otherwise it sleeps on its own channel. In
      every case wait_lock is free again. */
  lemma KwaitAlone(s: System, p: nat)
    requires Alone(s, s.procs, p) && s.procs[p].pc == WaitWanting && s.lock == None && s.procs[p].parent != Some(p)
    ensures var z := FirstZombie(s.procs, p, 0);
            Comes(s, p, if z < 64 then At(s.(reaped := s.reaped + {s.procs[z].pid}), s.procs[z := FreeProc], p, Other)
                        else if !HasChild(s.procs, p) || s.procs[p].killed then At(s, s.procs, p, Other)
                        else At(s, s.procs[p := s.procs[p].(chan := OnProc(p), state := SLEEPING)], p, Asleep))
  {
    hide Comes;
    hide HoldsOwn;
    hide HasChild;
    hide FirstZombie;
    KwaitScans(s, p);
    var u, kids := s.(lock := Some(p)), HasChild(s.procs, p);
    if FirstZombie(s.procs, p, 0) >= 64 {
      assert s.(lock := None) == s;
      DecidingEnds(s, s.procs, p, kids);
      if !kids || s.procs[p].killed {
        ComesOn(s, p, At(u, s.procs, p, Deciding(kids)), At(s, s.procs, p, Other));
      } else {
        DrowsySleeps(s, s.procs, p);
        ComesOn(s, p, At(u, s.procs, p, Deciding(kids)), At(u, s.procs, p, Drowsy));
        ComesOn(s, p, At(u, s.procs, p, Drowsy), At(s, s.procs[p := s.procs[p].(chan := OnProc(p), state := SLEEPING)], p, Asleep));
      }
    }
  }

  /** A kill can be missed. Whenever a process calls kwait that has children, no zombie among them, and
      is not killed, then a kill that comes before its sleep marks it and lets it sleep all the same. */
  lemma KillIsMissed(s: System, p: nat)
    requires Alone(s, s.procs, p) && s.procs[p].pc == WaitWanting && s.lock == None && s.procs[p].parent != Some(p)
    requires FirstZombie(s.procs, p, 0) == 64 && HasChild(s.procs, p) && !s.procs[p].killed
    ensures var drowsy := At(s.(lock := Some(p)), s.procs, p, Drowsy);
            var asleep := s.procs[p].(killed := true, chan := OnProc(p), state := SLEEPING, pc := Asleep);
            && Comes(s, p, drowsy) && Enabled(drowsy, Kill(p))
            && Comes(Do(drowsy, Kill(p)), p, s.(procs := s.procs[p := asleep]))
  {
    hide Comes;
    hide HasChild;
    hide FirstZombie;
    var u := s.(lock := Some(p));
    KwaitScans(s, p);
    DecidingEnds(s, s.procs, p, true);
    ComesOn(s, p, At(u, s.procs, p, Deciding(true)), At(u, s.procs, p, Drowsy));
    var marked := s.procs[p := s.procs[p].(killed := true)];
    assert Do(At(u, s.procs, p, Drowsy), Kill(p)) == At(u, marked, p, Drowsy);
    DrowsySleeps(s, marked, p);
    assert s.(lock := None) == s;
    assert At(s, marked[p := marked[p].(chan := OnProc(p), state := SLEEPING)], p, Asleep).procs
        == s.procs[p := s.procs[p].(killed := true, chan := OnProc(p), state := SLEEPING, pc := Asleep)];
  }

  // ---- fork --------------------------------------------------------------------------------

  // The table while fork fills slot np.
  ghost function Filling(procs: seq<Proc>, p: nat, np: nat, pid: nat, st: State, parent: Option<nat>): (r: seq<Proc>)
    requires |procs| == 64 && p < 64 && np < 64
    ensures |r| == 64
  {
    procs[np := Proc(st, NoChan, false, pid, parent, Other)]
  }

  lemma ForkNames(s: System, procs: seq<Proc>, p: nat, np: nat, pid: nat)
    requires Alone(s, procs, p) && np < 64 && np != p
    ensures Comes(At(s.(lock := None), Filling(procs, p, np, pid, USED, None), p, Forking(np)), p,
                  At(s.(lock := Some(p)), Filling(procs, p, np, pid, USED, Some(p)), p, ForkNamed(np)))
  {
    hide Comes;
    hide HoldsOwn;
    var v, bare := s.(lock := Some(p)), Filling(procs, p, np, pid, USED, None);
    var a, b, c := At(s.(lock := None), bare, p, Forking(np)), At(v, bare, p, ForkLocked(np)),
      At(v, Filling(procs, p, np, pid, USED, Some(p)), p, ForkNamed(np));
    ComesStep(a, p, b);
    assert c.procs == Do(b, Advance(p)).procs;
    ComesStep(b, p, c);
    ComesOn(a, p, b, c);
  }

  lemma ForkFrees(s: System, procs: seq<Proc>, p: nat, np: nat, pid: nat)
    requires Alone(s, procs, p) && np < 64 && np != p
    ensures Comes(At(s.(lock := Some(p)), Filling(procs, p, np, pid, USED, Some(p)), p, ForkNamed(np)), p,
                  At(s.(lock := None), Filling(procs, p, np, pid, RUNNABLE, Some(p)), p, Other))
  {
    hide Comes;
    hide HoldsOwn;
    var u, named := s.(lock := None), Filling(procs, p, np, pid, USED, Some(p));
    var c, d, e := At(s.(lock := Some(p)), named, p, ForkNamed(np)), At(u, named, p, ForkReady(np)),
      At(u, Filling(procs, p, np, pid, RUNNABLE, Some(p)), p, Other);
    ComesStep(c, p, d);
    FreedTable(d, procs, p, np, pid);
    assert e.procs == Do(d, Advance(p)).procs;
    ComesStep(d, p, e);
    ComesOn(c, p, d, e);
  }

  lemma FreedTable(d: System, procs: seq<Proc>, p: nat, np: nat, pid: nat)
    requires |procs| == 64 && p < 64 && np < 64 && np != p && d.init < 64 && procs[p].state == RUNNING
    requires d.procs == At(d, Filling(procs, p, np, pid, USED, Some(p)), p, ForkReady(np)).procs
    ensures Enabled(d, Advance(p))
    ensures Do(d, Advance(p)).procs == At(d, Filling(procs, p, np, pid, RUNNABLE, Some(p)), p, Other).procs
  {
    assert d.procs[np].pc == Other;
  }

  /** The steps of kfork, uninterrupted, turn the unused slot that allocproc has found into a runnable
      process with the next process id, the caller as its parent and no mark of kill, and leave every
      other slot, and the caller itself, as they were, with wait_lock free. */
  lemma KforkAlone(s: System, p: nat, np: nat)
    requires Alone(s, s.procs, p) && s.procs[p].pc == Other && s.lock == None && np < 64 && s.procs[np].state == UNUSED
    ensures Enabled(s, Alloc(p, np))
    ensures Comes(Do(s, Alloc(p, np)), p,
                  s.(procs := s.procs[np := Proc(RUNNABLE, NoChan, false, s.nextpid, Some(p), Other)], nextpid := s.nextpid + 1))
  {
    hide Comes;
    hide HoldsOwn;
    hide CanAdvance;
    var u := s.(nextpid := s.nextpid + 1);
    ForkNames(u, s.procs, p, np, s.nextpid);
    ForkFrees(u, s.procs, p, np, s.nextpid);
    ComesOn(At(u, Filling(s.procs, p, np, s.nextpid, USED, None), p, Forking(np)), p,
            At(u.(lock := Some(p)), Filling(s.procs, p, np, s.nextpid, USED, Some(p)), p, ForkNamed(np)),
            At(u, Filling(s.procs, p, np, s.nextpid, RUNNABLE, Some(p)), p, Other));
    assert At(u, Filling(s.procs, p, np, s.nextpid, RUNNABLE, Some(p)), p, Other).procs
        == s.procs[np := Proc(RUNNABLE, NoChan, false, s.nextpid, Some(p), Other)];
  }
}
