/** wakeup, reparent, kexit and kwait over the process table, each run to its end while it holds
    wait_lock. */
module ExitWaitCode {
  import opened Options
  import opened ExitWait

  // The table after wakeup(chan) by process p.
  ghost function Woken(procs: seq<Proc>, p: nat, chan: Chan): (r: seq<Proc>)
    ensures |r| == |procs|
  {
    seq(|procs|, j requires 0 <= j < |procs| =>
          if j != p && procs[j].state == SLEEPING && procs[j].chan == chan then procs[j].(state := RUNNABLE) else procs[j])
  }

  // The table after p's children have been given to init.
  ghost function Adopted(procs: seq<Proc>, p: nat, init: nat): (r: seq<Proc>)
    ensures |r| == |procs|
  {
    seq(|procs|, j requires 0 <= j < |procs| =>
          if procs[j].parent == Some(p) then procs[j].(parent := Some(init)) else procs[j])
  }

  ghost predicate HasChild(procs: seq<Proc>, p: nat) { exists j :: 0 <= j < |procs| && procs[j].parent == Some(p) }

  // The table after reparent.
  ghost function Reparented(procs: seq<Proc>, p: nat, init: nat): (r: seq<Proc>)
    ensures |r| == |procs|
  {
    if HasChild(procs, p) then Woken(Adopted(procs, p, init), p, OnProc(init)) else procs
  }

  // The table when kexit has made p a zombie.
  ghost function Exited(procs: seq<Proc>, p: nat, init: nat): (r: seq<Proc>)
    requires p < |procs|
    ensures |r| == |procs|
  {
    var r := Reparented(procs, p, init);
    var w := if r[p].parent.Some? then Woken(r, p, OnProc(r[p].parent.value)) else r;
    w[p := w[p].(state := ZOMBIE)]
  }

  // The first zombie child of p from entry i on; the table's length if there is none.
  ghost function FirstZombie(procs: seq<Proc>, p: nat, i: nat): (r: nat)
    requires i <= |procs|
    ensures i <= r <= |procs| && (r < |procs| ==> procs[r].parent == Some(p) && procs[r].state == ZOMBIE)
    ensures forall k :: i <= k < r && procs[k].parent == Some(p) ==> procs[k].state != ZOMBIE
    decreases |procs| - i
  {
    if i == |procs| || (procs[i].parent == Some(p) && procs[i].state == ZOMBIE) then i else FirstZombie(procs, p, i + 1)
  }

  class ProcTable {
    const procs: array<Proc>
    const init: nat

    constructor (init: nat)
      requires init < 64
      ensures procs.Length == 64 && this.init == init && fresh(procs)
    {
      this.init := init;
      procs := new Proc[64](_ => FreeProc);
    }

    method Wakeup(p: nat, chan: Chan)
      modifies procs
      ensures procs[..] == Woken(old(procs[..]), p, chan)
    {
      var j := 0;
      while j < procs.Length
        invariant 0 <= j <= procs.Length
        invariant forall k :: 0 <= k < procs.Length ==>
                    procs[k] == if k < j then Woken(old(procs[..]), p, chan)[k] else old(procs[k])
      {
        if j != p {
          if procs[j].state == SLEEPING && procs[j].chan == chan {
            procs[j] := procs[j].(state := RUNNABLE);
          }
        }
        j := j + 1;
      }
    }

    /** reparent: every child of p becomes init's, and if there was one init is awake. */
    method Reparent(p: nat)
      requires p != init
      modifies procs
      ensures procs[..] == Reparented(old(procs[..]), p, init)
    {
      ghost var was := procs[..];
      ghost var any := false;
      var i := 0;
      while i < procs.Length
        invariant 0 <= i <= procs.Length
        invariant any <==> exists k :: 0 <= k < i && was[k].parent == Some(p)
        invariant forall k :: 0 <= k < procs.Length ==> procs[k] == PartlyAdopted(was, p, i, any)[k]
      {
        if procs[i].parent == Some(p) {
          procs[i] := procs[i].(parent := Some(init));
          Wakeup(p, OnProc(init));
          any := true;
        }
        i := i + 1;
      }
      if HasChild(was, p) {
        var k :| 0 <= k < |was| && was[k].parent == Some(p);
      }
    }

    // The first i entries have been looked at.
    ghost function PartlyAdopted(was: seq<Proc>, p: nat, i: nat, any: bool): (r: seq<Proc>)
      ensures |r| == |was|
    {
      var half := seq(|was|, j requires 0 <= j < |was| =>
                        if j < i && was[j].parent == Some(p) then was[j].(parent := Some(init)) else was[j]);
      if any then Woken(half, p, OnProc(init)) else half
    }

    /** kexit while it holds wait_lock, up to the switch: the children are init's, the parent is awake,
        and p is a zombie. */
    method Kexit(p: nat)
      requires p < procs.Length && p != init
      modifies procs
      ensures procs[..] == Exited(old(procs[..]), p, init)
    {
      Reparent(p);
      if procs[p].parent.Some? {
        Wakeup(p, OnProc(procs[p].parent.value));
      }
      procs[p] := procs[p].(state := ZOMBIE);
    }

    /** One pass of kwait's loop while it holds wait_lock: the first zombie child is freed and its
        process id returned; or there are no children, or p has been killed, and it fails; or it must
        sleep. */
    method Kwait(p: nat) returns (ended: bool, pid: int)
      requires p < procs.Length
      modifies procs
      ensures var i := FirstZombie(old(procs[..]), p, 0);
              if i < procs.Length then ended && pid == old(procs[..])[i].pid && procs[..] == old(procs[..])[i := FreeProc]
              else procs[..] == old(procs[..]) && pid == -1 && (ended <==> !HasChild(procs[..], p) || procs[p].killed)
    {
      var havekids, i := false, 0;
      ghost var was := procs[..];
      while i < procs.Length
        invariant 0 <= i <= procs.Length && procs[..] == was && FirstZombie(was, p, i) == FirstZombie(was, p, 0)
        invariant havekids <==> exists k :: 0 <= k < i && was[k].parent == Some(p)
      {
        if procs[i].parent == Some(p) {
          havekids := true;
          assert was[i].parent == Some(p);
          if procs[i].state == ZOMBIE {
            pid := procs[i].pid;
            procs[i] := FreeProc;
            return true, pid;
          }
        }
        i := i + 1;
      }
      return !havekids || procs[p].killed, -1;
    }
  }
}
