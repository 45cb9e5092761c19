/** A run in which log_write stops the machine although every operation keeps within
    MAXOPBLOCKS: log.c tests "log full" before it looks for the block in the log. */
module LogHalt {
  import opened Disk
  import opened RedoLog
  import opened LogOps
  import opened LogRuns

  const START: nat := 2
  const FIRST: nat := 33    // the first block after the log

  ghost function CleanDisk(): (d: Image)
    ensures WellFormed(START, d) && d[START].words[0] == 0 && |d| == 64
  {
    seq(64, i => Block(seq(WORDS, j => 0)))
  }

  ghost predicate Reached(run: seq<State>, steps: seq<Step>, s: State) {
    IsRun(START, CleanDisk(), run, steps) && run[|steps|] == s
  }

  lemma Extend(run: seq<State>, steps: seq<Step>, s: State, step: Step)
    requires Reached(run, steps, s) && Enabled(START, s, step)
    ensures Reached(run + [Do(START, s, step)], steps + [step], Do(START, s, step))
  {
    var run', steps' := run + [Do(START, s, step)], steps + [step];
    forall i | 0 <= i < |steps'| ensures Enabled(START, run'[i], steps'[i]) && run'[i + 1] == Do(START, run'[i], steps'[i]) {
      if i < |steps| {
        assert run'[i] == run[i] && run'[i + 1] == run[i + 1] && steps'[i] == steps[i];
      }
    }
  }

  ghost function Interval(from: nat, n: nat): set<nat> {
    if n == 0 then {} else Interval(from, n - 1) + {from + n - 1}
  }

  lemma {:induction false} IntervalMembers(from: nat, n: nat)
    ensures |Interval(from, n)| == n
    ensures forall b :: b in Interval(from, n) <==> from <= b < from + n
  {
    if n > 0 {
      IntervalMembers(from, n - 1);
    }
  }

  // The operations 0 to n - 1.
  ghost function Ops(n: nat): set<Proc> {
    if n == 0 then {} else if n == 1 then {0} else if n == 2 then {0, 1} else {0, 1, 2}
  }

  // The first k blocks after the log, and operation p's share of them when each takes ten.
  ghost function FirstBlocks(k: nat): (bs: seq<nat>)
    ensures |bs| == k
  {
    seq(k, i => FIRST + i)
  }

  ghost function Share(p: Proc, k: nat): set<nat> {
    Interval(FIRST + 10 * p, if k <= 10 * p then 0 else if k < 10 * p + 10 then k - 10 * p else 10)
  }

  // Operations 0 to n - 1 have begun and have logged k blocks, ten each, one after the other.
  ghost predicate Filled(s: State, n: nat, k: nat) {
    && s.phase.Running? && !s.mem.committing && s.mem.sleepers == {} && |s.disk| == 64
    && s.active.Keys == s.issued.Keys == Ops(n)
    && s.mem.blocks == FirstBlocks(k)
    && forall p :: p in s.active ==> s.active[p] == Share(p, k)
  }

  lemma ReachedSound(run: seq<State>, steps: seq<Step>, s: State)
    requires Reached(run, steps, s)
    ensures Sound(START, s)
  {
    RunsKeepInv(START, CleanDisk(), run, steps, |steps|);
  }

  lemma BeginEnabled(s: State, n: nat)
    requires Sound(START, s) && Filled(s, n, 0) && n < 3
    ensures Enabled(START, s, Begin(n)) && Admits(s.mem)
  {
    assert s.mem.outstanding == |s.active.Keys| == n;
  }

  lemma BeginOne(s: State, n: nat)
    requires Filled(s, n, 0) && n < 3 && Admits(s.mem)
    ensures Filled(BeginStep(s, n), n + 1, 0)
  {
    var t := BeginStep(s, n);
    assert t.active.Keys == s.active.Keys + {n};
    assert Share(n, 0) == {};
  }

  // The next block belongs to the operation whose turn it is.
  lemma ShareStep(p: Proc, k: nat)
    requires p == k / 10
    ensures Share(p, k) + {FIRST + k} == Share(p, k + 1) && |Share(p, k + 1)| <= MAXOPBLOCKS
  {
    IntervalMembers(FIRST + 10 * p, k + 1 - 10 * p);
  }

  lemma ShareOther(p: Proc, k: nat)
    requires p != k / 10
    ensures Share(p, k) == Share(p, k + 1)
  {
  }

  lemma OpsMembers(p: Proc)
    requires p < 3
    ensures p in Ops(3) && |Ops(3)| == 3
  {
    assert p == 0 || p == 1 || p == 2;
  }

  lemma FillRoom(s: State, k: nat, p: Proc)
    requires Filled(s, 3, k) && k < LOGBLOCKS && p == k / 10
    ensures p in s.active && |s.active[p] + {FIRST + k}| <= MAXOPBLOCKS && |s.active| == 3
  {
    OpsMembers(p);
    ShareStep(p, k);
    assert s.active.Keys == Ops(3);
  }

  lemma FillEnabled(s: State, k: nat, p: Proc, data: Block)
    requires Sound(START, s) && Filled(s, 3, k) && k < LOGBLOCKS && p == k / 10
    ensures Enabled(START, s, Log(p, FIRST + k, data))
    ensures LogWrite(s.mem, FIRST + k, data).Done? && p in s.active
  {
    FillRoom(s, k, p);
  }

  lemma FillOne(s: State, k: nat, p: Proc, data: Block)
    requires Filled(s, 3, k) && k < LOGBLOCKS && p == k / 10 && p in s.active
    requires LogWrite(s.mem, FIRST + k, data).Done?
    ensures Filled(LogStep(s, p, FIRST + k, data), 3, k + 1)
  {
    var t := LogStep(s, p, FIRST + k, data);
    assert t.active.Keys == s.active.Keys && t.issued.Keys == s.issued.Keys;
    assert FirstBlocks(k + 1) == FirstBlocks(k) + [FIRST + k];
    forall q | q in t.active ensures t.active[q] == Share(q, k + 1) {
      if q == p { ShareStep(q, k); } else { ShareOther(q, k); }
    }
  }

  lemma BeginAll() returns (run: seq<State>, steps: seq<Step>, s: State)
    ensures Reached(run, steps, s) && Filled(s, 3, 0)
  {
    s := Boot(CleanDisk());
    run, steps := [s], [];
    assert s.active.Keys == Ops(0);
    assert FirstBlocks(0) == [];
    for n := 0 to 3
      invariant Reached(run, steps, s) && Filled(s, n, 0)
    {
      ReachedSound(run, steps, s);
      BeginEnabled(s, n);
      BeginOne(s, n);
      Extend(run, steps, s, Begin(n));
      run, steps, s := run + [Do(START, s, Begin(n))], steps + [Begin(n)], Do(START, s, Begin(n));
    }
  }

  lemma FillLog(data: Block) returns (run: seq<State>, steps: seq<Step>, s: State)
    ensures Reached(run, steps, s) && Filled(s, 3, LOGBLOCKS)
  {
    run, steps, s := BeginAll();
    for k := 0 to LOGBLOCKS
      invariant Reached(run, steps, s) && Filled(s, 3, k)
    {
      var step := Log(k / 10, FIRST + k, data);
      ReachedSound(run, steps, s);
      FillEnabled(s, k, k / 10, data);
      FillOne(s, k, k / 10, data);
      Extend(run, steps, s, step);
      run, steps, s := run + [Do(START, s, step)], steps + [step], Do(START, s, step);
    }
  }

  lemma FullEnabled(s: State, data: Block)
    requires Sound(START, s) && Filled(s, 3, LOGBLOCKS)
    ensures Enabled(START, s, Log(0, FIRST, data)) && FIRST in s.mem.blocks
  {
    IntervalMembers(FIRST, 10);
    assert s.active[0] + {FIRST} == s.active[0];
    assert s.mem.blocks[0] == FIRST;
  }

  /** The log is full after three operations of ten blocks each, and the next log_write of a
      block they have logged already - a step their discipline allows - halts the machine. */
  lemma FullLogHalts(data: Block) returns (run: seq<State>, steps: seq<Step>, b: nat)
    ensures IsRun(START, CleanDisk(), run, steps)
    ensures Enabled(START, run[|steps|], Log(0, b, data)) && b in run[|steps|].mem.blocks
    ensures LogWrite(run[|steps|].mem, b, data).Panic?
  {
    var s;
    run, steps, s := FillLog(data);
    ReachedSound(run, steps, s);
    b := FIRST;
    FullEnabled(s, data);
  }
}
