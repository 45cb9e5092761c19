/** A run in which two operations that overlap, and change the same inode block, are committed as one
    batch; and what a crash right behind the commit point leaves. */
module FileCommit {
  import opened Disk
  import opened RedoLog
  import opened LogOps
  import L = LogRuns
  import opened FileBlocks
  import opened FileRuns
  import opened FileCrash

  const START: nat := 2
  const INODES: nat := 40     // the block of the inodes; the bitmap is behind it

  function Empty(nlink: nat): Inode { Inode(1, nlink, 0, NoAddrs) }

  // Three empty files, the last two with these link counts.
  ghost function Sys(i: nat, j: nat, logged: set<nat>): Fs {
    var inodes := [Empty(1), Empty(i), Empty(j)];
    Fs(Super(INODES, INODES + 1), seq(64, b => true), seq(64, b => ZeroBlock()), inodes, inodes, logged, seq(64, b => Meta))
  }

  ghost function History(): (fs: seq<Fs>)
    ensures |fs| == 3 && fs[0] == Sys(0, 0, {}) && fs[1] == Sys(1, 0, {INODES}) && fs[2] == Sys(1, 1, {INODES})
  {
    [Sys(0, 0, {}), Sys(1, 0, {INODES}), Sys(1, 1, {INODES})]
  }

  const LINKS: seq<Op> := [Link(1, 1), Link(2, 1)]

  lemma SysOk(i: nat, j: nat, logged: set<nat>)
    ensures Wf(Sys(i, j, logged)) && Inv(Sys(i, j, logged))
  {
  }

  lemma LinkOne(i: nat, j: nat)
    ensures SetLinks(Sys(i, j, {}), 1, 1) == Sys(1, j, {INODES}) && SetLinks(Sys(i, j, {}), 2, 1) == Sys(i, 1, {INODES})
  {
    hide Wf;
  }

  lemma HistoryIs()
    ensures IsHistory(History(), LINKS)
  {
    hide Wf;
    hide Inv;
    hide SetLinks;
    hide Sys;
    SysOk(0, 0, {});
    forall i | 0 <= i < 2 ensures Leads(History()[i], LINKS[i], History()[i + 1]) {
      LinkOne(0, 0);
      LinkOne(1, 0);
      LinkEnabled(i);
    }
  }

  lemma LinkEnabled(i: nat)
    requires i < 2
    ensures var f := History()[i].(logged := {}); f == Sys(i, 0, {}) && Enabled(f, LINKS[i])
  {
  }

  // ---- the run of the log ------------------------------------------------------------------

  // What the inode block holds with these link counts.
  ghost function Block40(i: nat, j: nat): Block { OnDisk(Sys(i, j, {}), INODES) }

  ghost function Home(): (d: Image)
    ensures WellFormed(START, d) && d[START].words[0] == 0 && |d| == 64 && Encodes(START, d, Sys(0, 0, {}))
  {
    seq(64, b requires 0 <= b < 64 => if IsHome(START, b) then OnDisk(Sys(0, 0, {}), b) else Block(seq(WORDS, j => 0)))
  }

  ghost predicate Reached(run: seq<L.State>, steps: seq<L.Step>, s: L.State) {
    L.IsRun(START, Home(), run, steps) && run[|steps|] == s
  }

  lemma Step(run: seq<L.State>, steps: seq<L.Step>, s: L.State, step: L.Step) returns (run': seq<L.State>, steps': seq<L.Step>, t: L.State)
    requires Reached(run, steps, s) && (L.Sound(START, s) ==> L.Enabled(START, s, step))
    ensures L.Enabled(START, s, step) && t == L.Do(START, s, step) && Reached(run', steps', t) && L.Sound(START, t)
  {
    hide L.Do;
    hide L.Enabled;
    hide L.Sound;
    hide Home;
    ReachedSound(run, steps, s);
    t := L.Do(START, s, step);
    run', steps' := run + [t], steps + [step];
    forall i | 0 <= i < |steps'| ensures L.Enabled(START, run'[i], steps'[i]) && run'[i + 1] == L.Do(START, run'[i], steps'[i]) {
      if i < |steps| { assert run'[i] == run[i] && run'[i + 1] == run[i + 1] && steps'[i] == steps[i]; }
    }
    ReachedSound(run', steps', t);
  }

  lemma ReachedSound(run: seq<L.State>, steps: seq<L.Step>, s: L.State)
    requires Reached(run, steps, s)
    ensures L.Sound(START, s)
  {
    hide L.Sound;
    hide Home;
    L.RunsKeepInv(START, Home(), run, steps, |steps|);
  }

  // The second process logs first, with only its own change; the first one's copy has both.
  ghost function Overlap(): seq<L.OpWrite> {
    [L.OpWrite(1, Disk.Write(INODES, Block40(0, 1))), L.OpWrite(0, Disk.Write(INODES, Block40(1, 1)))]
  }

  ghost predicate Begun(s: L.State) {
    && s.phase.Running? && s.mem == LogMem([], 2, false, map[], {}) && s.active == map[0 := {}, 1 := {}]
    && s.issued.Keys == {0, 1} && s.batch == L.Batch({0, 1}, []) && s.durable == [] && |s.disk| == 64
  }

  lemma BothBegin() returns (run: seq<L.State>, steps: seq<L.Step>, s: L.State)
    ensures Reached(run, steps, s) && Begun(s)
  {
    hide Home;
    hide L.Sound;
    s := L.Boot(Home());
    run, steps := [s], [];
    run, steps, s := Step(run, steps, s, L.Begin(0));
    run, steps, s := Step(run, steps, s, L.Begin(1));
  }

  ghost predicate Written(s: L.State) {
    && s.phase.Running? && s.mem.blocks == [INODES] && s.mem.outstanding == 2 && !s.mem.committing && s.active.Keys == {0, 1}
    && s.batch == L.Batch({0, 1}, Overlap()) && s.durable == [] && |s.disk| == 64
  }

  lemma BothLog(run: seq<L.State>, steps: seq<L.Step>, s: L.State) returns (run': seq<L.State>, steps': seq<L.Step>, t: L.State)
    requires Reached(run, steps, s) && Begun(s)
    ensures Reached(run', steps', t) && Written(t)
  {
    hide Home;
    hide L.Sound;
    hide Block40;
    run', steps', t := Step(run, steps, s, L.Log(1, INODES, Block40(0, 1)));
    run', steps', t := Step(run', steps', t, L.Log(0, INODES, Block40(1, 1)));
  }

  ghost predicate Ended(s: L.State) {
    && s.phase.Committing? && s.phase.pos == 0 && |s.phase.txn.blocks| == 1
    && s.batch == L.Batch({0, 1}, Overlap()) && s.durable == [] && |s.disk| == 64
  }

  lemma BothEnd(run: seq<L.State>, steps: seq<L.Step>, s: L.State) returns (run': seq<L.State>, steps': seq<L.Step>, t: L.State)
    requires Reached(run, steps, s) && Written(s)
    ensures Reached(run', steps', t) && Ended(t)
  {
    hide Home;
    hide L.Sound;
    run', steps', t := Step(run, steps, s, L.End(1));
    run', steps', t := Step(run', steps', t, L.End(0));
  }

  lemma CommitPoint(run: seq<L.State>, steps: seq<L.Step>, s: L.State) returns (run': seq<L.State>, steps': seq<L.Step>, t: L.State)
    requires Reached(run, steps, s) && Ended(s)
    ensures Reached(run', steps', t) && t.durable == [L.Batch({0, 1}, Overlap())] && t.phase.Committing?
  {
    hide Home;
    hide L.Sound;
    run', steps', t := Step(run, steps, s, L.CommitWrite);
    run', steps', t := Step(run', steps', t, L.CommitWrite);
  }

  // ---- what it leaves ----------------------------------------------------------------------

  lemma OverlapIsBatch()
    ensures Batched([L.Batch({0, 1}, Overlap())], History(), [0, 2])
  {
    hide OnDisk;
    var fs, ws := History(), L.Effects(Overlap());
    assert Logged(fs, 0, 0) == {} && Logged(fs, 0, 1) == {INODES} && Logged(fs, 0, 2) == {INODES};
    BeginSameBlock(fs[2], INODES);
    assert fs[2].(logged := {}) == Sys(1, 1, {});
    assert LastWrite(fs[2], ws, INODES, 1);
    assert IsBatch(ws, fs, 0, 2);
  }

  /** Behind the header write of this commit, with nothing installed yet, recovery gives the file system
      with both links made. */
  lemma BothOrNone() returns (run: seq<L.State>, steps: seq<L.Step>)
    ensures L.IsRun(START, Home(), run, steps) && run[|steps|].durable == [L.Batch({0, 1}, Overlap())] && run[|steps|].phase.Committing?
    ensures WellFormed(START, run[|steps|].disk) && Encodes(START, Recovered(START, run[|steps|].disk), Sys(1, 1, {INODES}))
  {
    hide Home;
    hide Overlap;
    hide Encodes;
    hide WellFormed;
    hide IsHistory;
    hide Batched;
    var s;
    run, steps, s := BothBegin();
    run, steps, s := BothLog(run, steps, s);
    run, steps, s := BothEnd(run, steps, s);
    run, steps, s := CommitPoint(run, steps, s);
    HistoryIs();
    OverlapIsBatch();
    RecoversInOrder(START, Home(), run, steps, |steps|, History(), LINKS, [0, 2]);
  }
}
