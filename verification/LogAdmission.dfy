/** When begin_op lets an operation in, and what end_op leaves behind, in every state of every run. */
module LogAdmission {
  import opened Disk
  import opened RedoLog
  import opened LogOps
  import opened LogRuns

  // Nothing but the operations, the sleepers and the record of who was admitted differs.
  ghost predicate OnlyAdmission(s: State, t: State) {
    && t.disk == s.disk && t.durable == s.durable && t.acked == s.acked && t.batch.writes == s.batch.writes
    && t.mem.blocks == s.mem.blocks && t.mem.cache == s.mem.cache
  }

  // No commit runs, and ten more blocks fit in the log's thirty on top of those in it and of ten for
  // every operation under way.
  ghost predicate HasRoom(s: State) { !s.phase.Committing? && |s.mem.blocks| + (|s.active| + 1) * 10 <= 30 }

  lemma Committing(start: nat, home: Image, s: State)
    requires Inv(start, home, s)
    ensures s.mem.committing <==> s.phase.Committing?
    ensures s.mem.outstanding == |s.active|
  {
    hide WellFormed;
    hide Consistent;
    hide Replay;
  }

  /** In every state of every run, begin_op admits its caller if and only if there is room for one more
      operation; otherwise the caller sleeps, and nothing else has changed. */
  lemma BeginAdmitsIff(start: nat, home: Image, run: seq<State>, steps: seq<Step>, i: nat, p: Proc)
    requires IsRun(start, home, run, steps) && i < |run| && Enabled(start, run[i], Begin(p))
    ensures var s, t := run[i], Do(start, run[i], Begin(p));
            && OnlyAdmission(s, t) && t.phase == s.phase
            && (HasRoom(s) ==> t.active == s.active[p := {}] && p !in s.active && t.mem.sleepers == s.mem.sleepers)
            && (!HasRoom(s) ==> t == s.(mem := t.mem) && p !in t.active && t.mem.sleepers == s.mem.sleepers + {p})
  {
    hide Inv;
    hide Sound;
    RunsKeepInv(start, home, run, steps, i);
    Committing(start, home, run[i]);
    IssuedFirst(start, run[i]);
  }

  lemma IssuedFirst(start: nat, s: State)
    requires Sound(start, s)
    ensures forall p :: p in s.active ==> p in s.issued
  {
    assert forall p :: p in s.active ==> p in s.active.Keys;
  }

  /** In every state of every run, end_op does not panic. The last operation out starts the commit of
      exactly the blocks in the log, with their contents in the cache; any other wakes everybody who
      sleeps in begin_op. */
  lemma EndLeaves(start: nat, home: Image, run: seq<State>, steps: seq<Step>, i: nat, p: Proc)
    requires IsRun(start, home, run, steps) && i < |run| && Enabled(start, run[i], End(p))
    ensures var s, t := run[i], Do(start, run[i], End(p));
            && OnlyAdmission(s, t) && t.issued == s.issued && t.batch == s.batch && t.active == s.active - {p}
            && (s.active.Keys != {p} ==> t.phase.Running? && t.mem.sleepers == {})
            && (s.active.Keys == {p} ==>
                  && t.phase.Committing? && t.phase.pos == 0 && t.phase.txn.start == start && t.phase.txn.disk == s.disk
                  && t.phase.txn.blocks == s.mem.blocks && |t.phase.txn.data| == |s.mem.blocks|
                  && (forall k :: 0 <= k < |s.mem.blocks| ==>
                        s.mem.blocks[k] in s.mem.cache && t.phase.txn.data[k] == s.mem.cache[s.mem.blocks[k]]))
  {
    hide Inv;
    hide WellFormed;
    var s := run[i];
    RunsKeepInv(start, home, run, steps, i);
    Committing(start, home, s);
    OneLeft(s.active, p);
  }

  lemma OneLeft(active: map<Proc, set<nat>>, p: Proc)
    requires p in active
    ensures |active| == 1 <==> active.Keys == {p}
  {
    assert active.Keys == {p} + (active.Keys - {p});
    assert |active.Keys| == 1 + |active.Keys - {p}|;
  }
}
