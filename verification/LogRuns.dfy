/** Every run of the log: operations that begin, log blocks and end in any interleaving, the
    commit writing one disk block at a time, and a crash possible between any two steps,
    recovery included. */
module LogRuns {
  import opened Disk
  import opened RedoLog
  import opened LogOps

  datatype OpWrite = OpWrite(op: Proc, write: Write)

  // What the operations admitted since the last commit have done together.
  datatype Batch = Batch(ops: set<Proc>, writes: seq<OpWrite>)

  const NoBatch: Batch := Batch({}, [])

  datatype Phase =
    | Running
    | Committing(txn: Transaction, pos: nat)    // pos of the commit's writes are on the disk
    | Recovering(base: Image, done: nat)         // done of the recovery's writes are on the disk

  datatype State = State(
    disk: Image,
    mem: LogMem,
    phase: Phase,
    active: map<Proc, set<nat>>,        // operations between begin_op and end_op, and what each logged
    // history
    issued: map<Proc, seq<Write>>,      // every operation ever admitted, with all it has written
    batch: Batch,                       // admitted and not yet committed
    durable: seq<Batch>,                // committed, in order
    acked: nat)                         // how many batches were committed when end_op last returned from a commit

  datatype Step =
    | Begin(p: Proc)
    | Log(p: Proc, b: nat, data: Block)
    | End(p: Proc)
    | CommitWrite | CommitDone
    | Crash
    | RecoverWrite | RecoverDone

  ghost function Effects(ws: seq<OpWrite>): (r: seq<Write>)
    ensures |r| == |ws|
  {
    seq(|ws|, i requires 0 <= i < |ws| => ws[i].write)
  }

  ghost predicate InRanges(d: Image, batches: seq<Batch>) {
    forall i :: 0 <= i < |batches| ==> InRange(d, Effects(batches[i].writes))
  }

  // The home blocks after the batches, applied in commit order to `d`.
  ghost function Replay(d: Image, batches: seq<Batch>): (r: Image)
    requires InRanges(d, batches)
    ensures |r| == |d|
  {
    if batches == [] then d
    else
      assert InRange(d, Effects(batches[|batches| - 1].writes));
      Apply(Replay(d, batches[..|batches| - 1]), Effects(batches[|batches| - 1].writes))
  }

  // The writes of one operation, in order.
  ghost function Project(ws: seq<OpWrite>, op: Proc): seq<Write> {
    if ws == [] then []
    else
      var w := ws[|ws| - 1];
      Project(ws[..|ws| - 1], op) + if w.op == op then [w.write] else []
  }

  ghost function Boot(disk: Image): State {
    State(disk, EmptyMem, Running, map[], map[], NoBatch, [], 0)
  }

  // The steps below are defined on these states; RunsAreSafe shows that runs reach no others.
  ghost predicate Sound(start: nat, s: State) {
    && Consistent(s.mem, start, |s.disk|)
    && WellFormed(start, s.disk)
    && s.mem.outstanding == |s.active| && s.active.Keys <= s.issued.Keys
    && (s.phase.Running? ==> s.disk[start].words[0] == 0)
    && (s.phase.Committing? ==> s.phase.txn.Ready() && s.phase.pos <= |s.phase.txn.Writes()| && |s.phase.txn.disk| == |s.disk|)
    && (s.phase.Recovering? ==>
          WellFormed(start, s.phase.base) && |s.phase.base| == |s.disk| && s.phase.done <= |RecoverWrites(start, s.phase.base)|)
  }

  ghost function Txn(start: nat, s: State): Transaction
    requires Sound(start, s)
  {
    Transaction(start, s.disk, s.mem.blocks, CachedData(s.mem.cache, s.mem.blocks))
  }

  ghost predicate Enabled(start: nat, s: State, step: Step) {
    && Sound(start, s)
    && match step
       case Begin(p) => !s.phase.Recovering? && p !in s.issued && p !in s.mem.sleepers
       case Log(p, b, data) =>
         && s.phase.Running? && p in s.active && b < |s.disk| && IsHome(start, b)
         && |s.active[p] + {b}| <= MAXOPBLOCKS
       case End(p) => s.phase.Running? && p in s.active
       case CommitWrite => s.phase.Committing? && s.phase.pos < |s.phase.txn.Writes()|
       case CommitDone => s.phase.Committing? && s.phase.pos == |s.phase.txn.Writes()|
       case Crash => true
       case RecoverWrite => s.phase.Recovering? && s.phase.done < |RecoverWrites(start, s.phase.base)|
       case RecoverDone => s.phase.Recovering? && s.phase.done == |RecoverWrites(start, s.phase.base)|
  }

  // Memory is gone; the operations that were not committed are gone with it.
  ghost function CrashOf(s: State): State {
    s.(mem := EmptyMem, phase := Recovering(s.disk, 0), active := map[], batch := NoBatch)
  }

  ghost function BeginStep(s: State, p: Proc): State {
    var t := s.(mem := BeginOp(s.mem, p));
    if !Admits(s.mem) then t
    else t.(active := s.active[p := {}], issued := s.issued[p := []], batch := s.batch.(ops := s.batch.ops + {p}))
  }

  // The panics of log_write stop the machine: one more way to crash.
  ghost function LogStep(s: State, p: Proc, b: nat, data: Block): State
    requires p in s.active && p in s.issued
  {
    match LogWrite(s.mem, b, data)
    case Panic => CrashOf(s)
    case Done(m) =>
      var w := Write(b, data);
      s.(mem := m,
         active := s.active[p := s.active[p] + {b}],
         issued := s.issued[p := s.issued[p] + [w]],
         batch := s.batch.(writes := s.batch.writes + [OpWrite(p, w)]))
  }

  ghost function EndStep(start: nat, s: State, p: Proc): State
    requires Sound(start, s) && p in s.active
  {
    assert |s.active| >= 1 by { assert p in s.active.Keys; }
    match EndOp(s.mem)
    case Panic => CrashOf(s)
    case Done(m) =>
      s.(mem := m,
         active := s.active - {p},
         phase := if m.committing then Committing(Txn(start, s), 0) else s.phase)
  }

  ghost function CommitWriteStep(s: State): State
    requires s.phase.Committing? && s.phase.txn.Ready() && s.phase.pos < |s.phase.txn.Writes()|
    requires |s.phase.txn.disk| == |s.disk|
  {
    var w := s.phase.txn.Writes()[s.phase.pos];
    var t := s.(disk := s.disk[w.blockno := w.data], phase := Committing(s.phase.txn, s.phase.pos + 1));
    if s.phase.pos == |s.phase.txn.blocks|      // the header: the commit point
    then t.(durable := s.durable + [s.batch], batch := NoBatch)
    else t
  }

  ghost function CommitDoneStep(s: State): State
    requires s.phase.Committing?
  {
    var t := s.(mem := FinishCommit(s.mem.(blocks := [], cache := map[])), phase := Running);
    if s.phase.txn.blocks == []                 // nothing was logged, nothing had to be written
    then t.(durable := s.durable + [s.batch], batch := NoBatch, acked := |s.durable| + 1)
    else t.(acked := |s.durable|)
  }

  ghost function RecoverWriteStep(start: nat, s: State): State
    requires s.phase.Recovering? && WellFormed(start, s.phase.base) && |s.phase.base| == |s.disk|
    requires s.phase.done < |RecoverWrites(start, s.phase.base)|
  {
    var w := RecoverWrites(start, s.phase.base)[s.phase.done];
    s.(disk := s.disk[w.blockno := w.data], phase := Recovering(s.phase.base, s.phase.done + 1))
  }

  ghost function Do(start: nat, s: State, step: Step): State
    requires Enabled(start, s, step)
  {
    match step
    case Begin(p) => BeginStep(s, p)
    case Log(p, b, data) => LogStep(s, p, b, data)
    case End(p) => EndStep(start, s, p)
    case CommitWrite => CommitWriteStep(s)
    case CommitDone => CommitDoneStep(s)
    case Crash => CrashOf(s)
    case RecoverWrite => RecoverWriteStep(start, s)
    case RecoverDone => s.(phase := Running)
  }

  // A run: consecutive states, each one step from the one before, from a clean boot.
  ghost predicate IsRun(start: nat, home: Image, run: seq<State>, steps: seq<Step>) {
    && |run| == |steps| + 1
    && WellFormed(start, home) && home[start].words[0] == 0
    && run[0] == Boot(home)
    && forall i :: 0 <= i < |steps| ==> Enabled(start, run[i], steps[i]) && run[i + 1] == Do(start, run[i], steps[i])
  }

  // ---- durability ------------------------------------------------------------------------

  // What the file system code sees: pinned buffers before the disk.
  ghost function View(s: State, b: nat): Block
    requires b < |s.disk|
  {
    if b in s.mem.cache then s.mem.cache[b] else s.disk[b]
  }

  // The committed batches and then the current one.
  ghost function Latest(home: Image, s: State): Image
    requires InRanges(home, s.durable) && InRange(home, Effects(s.batch.writes))
  {
    Apply(Replay(home, s.durable), Effects(s.batch.writes))
  }

  ghost predicate RunningInv(start: nat, home: Image, s: State)
    requires Sound(start, s) && InRanges(home, s.durable) && InRange(home, Effects(s.batch.writes)) && |home| == |s.disk|
  {
    && !s.mem.committing
    && SameHome(start, s.disk, Replay(home, s.durable))
    && (forall b :: 0 <= b < |s.disk| && IsHome(start, b) ==> View(s, b) == Latest(home, s)[b])
    && (s.active == map[] ==> s.mem.blocks == [] && s.batch == NoBatch)
    && s.acked <= |s.durable|
  }

  ghost predicate CommittingInv(start: nat, home: Image, s: State)
    requires Sound(start, s) && InRanges(home, s.durable) && InRange(home, Effects(s.batch.writes)) && |home| == |s.disk|
    requires s.phase.Committing?
  {
    var c := s.phase.txn;
    && s.mem.committing && s.active == map[]
    && c.start == start && s.disk == c.After(s.phase.pos)
    && (s.phase.pos <= |c.blocks| ==>
          && SameHome(start, c.disk, Replay(home, s.durable))
          && Overlays(start, c.disk, c.blocks, c.data, Latest(home, s))
          && s.acked <= |s.durable|)
    && (s.phase.pos > |c.blocks| ==>
          && Overlays(start, c.disk, c.blocks, c.data, Replay(home, s.durable))
          && s.batch == NoBatch && s.acked < |s.durable|)
  }

  ghost predicate RecoveringInv(start: nat, home: Image, s: State)
    requires Sound(start, s) && InRanges(home, s.durable) && |home| == |s.disk|
    requires s.phase.Recovering?
  {
    && s.mem == EmptyMem && s.active == map[] && s.batch == NoBatch
    && s.disk == Apply(s.phase.base, RecoverWrites(start, s.phase.base)[..s.phase.done])
    && SameHome(start, Recovered(start, s.phase.base), Replay(home, s.durable))
    && s.acked <= |s.durable|
  }

  ghost predicate Inv(start: nat, home: Image, s: State) {
    && Sound(start, s) && |home| == |s.disk|
    && InRanges(home, s.durable) && InRange(home, Effects(s.batch.writes))
    && match s.phase
       case Running => RunningInv(start, home, s)
       case Committing(_, _) => CommittingInv(start, home, s)
       case Recovering(_, _) => RecoveringInv(start, home, s)
  }

  lemma BootInv(start: nat, home: Image)
    requires WellFormed(start, home) && home[start].words[0] == 0
    ensures Inv(start, home, Boot(home))
  {
  }

  // In every state, running recovery on the disk gives the committed batches and nothing else.
  lemma RecoveredIsDurable(start: nat, home: Image, s: State)
    requires Inv(start, home, s)
    ensures SameHome(start, Recovered(start, s.disk), Replay(home, s.durable))
  {
    match s.phase
    case Running => CleanRecovers(start, s.disk);
    case Committing(c, pos) =>
      if c.blocks == [] {
        assert c.After(pos) == c.disk;
        CleanRecovers(start, s.disk);
      } else if pos <= |c.blocks| {
        BeforeCommitPoint(c, pos);
        CleanRecovers(start, s.disk);
      } else {
        AfterCommitPoint(c, pos);
        OverlaysUnique(start, c.disk, c.blocks, c.data, Recovered(start, s.disk), Replay(home, s.durable));
      }
    case Recovering(base, done) => RecoveryIdempotent(start, base, done);
  }

  lemma CrashKeepsInv(start: nat, home: Image, s: State)
    requires Inv(start, home, s)
    ensures Inv(start, home, CrashOf(s))
  {
    RecoveredIsDurable(start, home, s);
    var t := CrashOf(s);
    assert RecoverWrites(start, s.disk)[..0] == [];
    assert Effects(NoBatch.writes) == [];
    assert s.acked <= |s.durable|;
  }

  lemma BeginKeepsInv(start: nat, home: Image, s: State, p: Proc)
    requires Inv(start, home, s) && Enabled(start, s, Begin(p))
    ensures Inv(start, home, BeginStep(s, p))
  {
    var t := BeginStep(s, p);
    if Admits(s.mem) {
      assert t.active.Keys == s.active.Keys + {p};
    }
    assert forall b :: 0 <= b < |s.disk| ==> View(t, b) == View(s, b);
  }

  // One more logged write, seen through the cache and through the history.
  lemma LatestGrows(home: Image, s: State, t: State, w: OpWrite)
    requires InRanges(home, s.durable) && InRange(home, Effects(s.batch.writes)) && w.write.blockno < |home|
    requires t.durable == s.durable && t.batch.writes == s.batch.writes + [w]
    ensures InRange(home, Effects(t.batch.writes))
    ensures Latest(home, t) == Latest(home, s)[w.write.blockno := w.write.data]
  {
    assert Effects(t.batch.writes) == Effects(s.batch.writes) + [w.write];
    assert Effects(t.batch.writes)[..|s.batch.writes|] == Effects(s.batch.writes);
  }

  lemma LogKeepsInv(start: nat, home: Image, s: State, p: Proc, b: nat, data: Block)
    requires Inv(start, home, s) && Enabled(start, s, Log(p, b, data))
    ensures Inv(start, home, LogStep(s, p, b, data))
  {
    var t := LogStep(s, p, b, data);
    if LogWrite(s.mem, b, data).Panic? {
      CrashKeepsInv(start, home, s);
    } else {
      LogWriteConsistent(s.mem, start, |s.disk|, b, data);
      LatestGrows(home, s, t, OpWrite(p, Write(b, data)));
      assert t.active.Keys == s.active.Keys;
      assert |t.active| == |t.active.Keys|;
      forall x | 0 <= x < |s.disk| && IsHome(start, x) ensures View(t, x) == Latest(home, t)[x] {
        assert View(s, x) == Latest(home, s)[x];
      }
      assert p in t.active;
    }
  }

  // The transaction end_op starts from stands for the current batch.
  lemma TxnOverlays(start: nat, home: Image, s: State)
    requires Inv(start, home, s) && s.phase.Running?
    ensures Txn(start, s).Ready() && Overlays(start, s.disk, Txn(start, s).blocks, Txn(start, s).data, Latest(home, s))
  {
    var c := Txn(start, s);
    forall i | 0 <= i < |c.blocks| ensures Latest(home, s)[c.blocks[i]] == c.data[i] {
      assert View(s, c.blocks[i]) == Latest(home, s)[c.blocks[i]];
    }
    forall b | 0 <= b < |s.disk| && IsHome(start, b) && b !in c.blocks ensures Latest(home, s)[b] == s.disk[b] {
      assert View(s, b) == Latest(home, s)[b];
    }
  }

  lemma EndKeepsInv(start: nat, home: Image, s: State, p: Proc)
    requires Inv(start, home, s) && Enabled(start, s, End(p))
    ensures Inv(start, home, EndStep(start, s, p))
  {
    var t := EndStep(start, s, p);
    assert t.active.Keys == s.active.Keys - {p};
    assert |t.active.Keys| == |s.active.Keys| - 1;
    if t.mem.committing {
      assert t.active.Keys == {};
      TxnOverlays(start, home, s);
      assert Txn(start, s).Writes()[..0] == [];
    } else {
      assert t.active != map[] by { assert |t.active.Keys| > 0; }
      forall x | 0 <= x < |s.disk| && IsHome(start, x) ensures View(t, x) == Latest(home, t)[x] {
        assert View(s, x) == Latest(home, s)[x];
      }
    }
  }

  // Moving the current batch to the committed ones is where Latest becomes Replay.
  lemma CommitPoint(home: Image, s: State)
    requires InRanges(home, s.durable) && InRange(home, Effects(s.batch.writes))
    ensures InRanges(home, s.durable + [s.batch])
    ensures Replay(home, s.durable + [s.batch]) == Latest(home, s)
  {
    assert (s.durable + [s.batch])[..|s.durable|] == s.durable;
  }

  // Writing the header commits the current batch.
  lemma HeaderWriteKeepsInv(start: nat, home: Image, s: State)
    requires Inv(start, home, s) && Enabled(start, s, CommitWrite) && s.phase.pos == |s.phase.txn.blocks|
    ensures Inv(start, home, CommitWriteStep(s))
  {
    var c, pos := s.phase.txn, s.phase.pos;
    ApplyNext(c.disk, c.Writes(), pos);
    AfterCommitPoint(c, pos + 1);
    CommitPoint(home, s);
    assert Effects(NoBatch.writes) == [];
  }

  // The writes before it go to the log, the writes after it install what it committed.
  lemma LogWriteKeepsInv(start: nat, home: Image, s: State)
    requires Inv(start, home, s) && Enabled(start, s, CommitWrite) && s.phase.pos < |s.phase.txn.blocks|
    ensures Inv(start, home, CommitWriteStep(s))
  {
    ApplyNext(s.phase.txn.disk, s.phase.txn.Writes(), s.phase.pos);
    BeforeCommitPoint(s.phase.txn, s.phase.pos + 1);
  }

  lemma InstallsNext(c: Transaction, disk: Image, pos: nat)
    requires c.Ready() && |c.blocks| < pos < |c.Writes()| && disk == c.After(pos)
    ensures c.blocks != [] && c.Writes()[pos].blockno < |disk|
    ensures disk[c.Writes()[pos].blockno := c.Writes()[pos].data] == c.After(pos + 1) && WellFormed(c.start, c.After(pos + 1))
  {
    hide WellFormed;
    hide Recovered;
    ApplyNext(c.disk, c.Writes(), pos);
    AfterCommitPoint(c, pos + 1);
  }

  lemma InstallWriteKeepsInv(start: nat, home: Image, s: State)
    requires Inv(start, home, s) && Enabled(start, s, CommitWrite) && s.phase.pos > |s.phase.txn.blocks|
    ensures Inv(start, home, CommitWriteStep(s))
  {
    hide WellFormed;
    hide Replay;
    hide Overlays;
    hide Consistent;
    hide Apply;
    InstallsNext(s.phase.txn, s.disk, s.phase.pos);
  }

  lemma CommitWriteKeepsInv(start: nat, home: Image, s: State)
    requires Inv(start, home, s) && Enabled(start, s, CommitWrite)
    ensures Inv(start, home, CommitWriteStep(s))
  {
    if s.phase.pos < |s.phase.txn.blocks| {
      LogWriteKeepsInv(start, home, s);
    } else if s.phase.pos == |s.phase.txn.blocks| {
      HeaderWriteKeepsInv(start, home, s);
    } else {
      InstallWriteKeepsInv(start, home, s);
    }
  }

  lemma CommitDoneKeepsInv(start: nat, home: Image, s: State)
    requires Inv(start, home, s) && Enabled(start, s, CommitDone)
    ensures Inv(start, home, CommitDoneStep(s))
  {
    var c, t := s.phase.txn, CommitDoneStep(s);
    CommitCompletes(c);
    CommitPoint(home, s);
    OverlaysUnique(start, c.disk, c.blocks, c.data, s.disk, Replay(home, t.durable));
    assert Effects(NoBatch.writes) == [];
    assert Latest(home, t) == Replay(home, t.durable);
  }

  lemma RecoverWriteKeepsInv(start: nat, home: Image, s: State)
    requires Inv(start, home, s) && Enabled(start, s, RecoverWrite)
    ensures Inv(start, home, RecoverWriteStep(start, s))
  {
    RecoveryIdempotent(start, s.phase.base, s.phase.done + 1);
    ApplyNext(s.phase.base, RecoverWrites(start, s.phase.base), s.phase.done);
  }

  lemma RecoverDoneKeepsInv(start: nat, home: Image, s: State)
    requires Inv(start, home, s) && Enabled(start, s, RecoverDone)
    ensures Inv(start, home, s.(phase := Running))
  {
    RecoveryIdempotent(start, s.phase.base, s.phase.done);
    CleanRecovers(start, s.disk);
    assert Effects(NoBatch.writes) == [];
  }

  /** Every step of every run keeps the invariant; in particular no run leaves the Sound states. */
  lemma StepKeepsInv(start: nat, home: Image, s: State, step: Step)
    requires Inv(start, home, s) && Enabled(start, s, step)
    ensures Inv(start, home, Do(start, s, step))
  {
    match step
    case Begin(p) => BeginKeepsInv(start, home, s, p);
    case Log(p, b, data) => LogKeepsInv(start, home, s, p, b, data);
    case End(p) => EndKeepsInv(start, home, s, p);
    case CommitWrite => CommitWriteKeepsInv(start, home, s);
    case CommitDone => CommitDoneKeepsInv(start, home, s);
    case Crash => CrashKeepsInv(start, home, s);
    case RecoverWrite => RecoverWriteKeepsInv(start, home, s);
    case RecoverDone => RecoverDoneKeepsInv(start, home, s);
  }

  lemma {:induction false} RunsKeepInv(start: nat, home: Image, run: seq<State>, steps: seq<Step>, i: nat)
    requires IsRun(start, home, run, steps) && i < |run|
    ensures Inv(start, home, run[i])
  {
    if i == 0 {
      BootInv(start, home);
    } else {
      RunsKeepInv(start, home, run, steps, i - 1);
      StepKeepsInv(start, home, run[i - 1], steps[i - 1]);
    }
  }

  /** Crash atomicity, at every point of every run.  Whatever the disk holds after any number
      of steps, crashes and crashes inside recovery among them, finishing recover_from_log on
      it yields the home blocks of exactly the batches committed so far, in order; and while
      no commit or recovery is under way the home blocks already are those. */
  lemma CrashAtomicity(start: nat, home: Image, run: seq<State>, steps: seq<Step>, i: nat)
    requires IsRun(start, home, run, steps) && i < |run|
    ensures InRanges(home, run[i].durable) && WellFormed(start, run[i].disk)
    ensures SameHome(start, Recovered(start, run[i].disk), Replay(home, run[i].durable))
    ensures run[i].phase.Running? ==> SameHome(start, run[i].disk, Replay(home, run[i].durable))
  {
    RunsKeepInv(start, home, run, steps, i);
    RecoveredIsDurable(start, home, run[i]);
  }

  lemma StepKeepsDurable(start: nat, home: Image, s: State, step: Step)
    requires Inv(start, home, s) && Enabled(start, s, step)
    ensures s.durable <= Do(start, s, step).durable && s.acked <= Do(start, s, step).acked
    ensures step.CommitDone? ==> Do(start, s, step).acked == |Do(start, s, step).durable|
  {
    assert s.acked <= |s.durable|;
  }

  lemma AckedAreDurable(start: nat, home: Image, s: State)
    requires Inv(start, home, s)
    ensures s.acked <= |s.durable|
  {
  }

  /** Durability: no later step, crash or not, takes a committed batch away again, and a batch
      whose committing end_op has returned is a committed one. */
  lemma {:induction false} CommitsAreDurable(start: nat, home: Image, run: seq<State>, steps: seq<Step>, i: nat, j: nat)
    requires IsRun(start, home, run, steps) && i <= j < |run|
    ensures run[i].durable <= run[j].durable
    ensures run[i].acked <= run[j].acked <= |run[j].durable|
    ensures i < j && steps[j - 1].CommitDone? ==> run[j].acked == |run[j].durable|
    decreases j - i
  {
    hide Inv;
    hide Do;
    hide Enabled;
    RunsKeepInv(start, home, run, steps, j);
    AckedAreDurable(start, home, run[j]);
    if i < j {
      CommitsAreDurable(start, home, run, steps, i, j - 1);
      RunsKeepInv(start, home, run, steps, j - 1);
      StepKeepsDurable(start, home, run[j - 1], steps[j - 1]);
    }
  }

  // ---- operations are whole ---------------------------------------------------------------

  // A batch holds all the writes of its operations, and nothing else.
  ghost predicate Whole(b: Batch, issued: map<Proc, seq<Write>>) {
    && (forall k :: 0 <= k < |b.writes| ==> b.writes[k].op in b.ops)
    && (forall op :: op in b.ops ==> op in issued && Project(b.writes, op) == issued[op])
  }

  ghost predicate OpsInv(s: State) {
    && Whole(s.batch, s.issued)
    && (forall i :: 0 <= i < |s.durable| ==> Whole(s.durable[i], s.issued))
    && (forall i, j :: 0 <= i < j < |s.durable| ==> s.durable[i].ops !! s.durable[j].ops)
    && (forall i :: 0 <= i < |s.durable| ==> s.durable[i].ops !! s.batch.ops)
    && s.active.Keys <= s.batch.ops
  }

  lemma {:induction false} ProjectForeign(ws: seq<OpWrite>, op: Proc)
    requires forall k :: 0 <= k < |ws| ==> ws[k].op != op
    ensures Project(ws, op) == []
  {
    if ws != [] {
      ProjectForeign(ws[..|ws| - 1], op);
    }
  }

  lemma WholeGrows(b: Batch, issued: map<Proc, seq<Write>>, issued': map<Proc, seq<Write>>)
    requires Whole(b, issued) && forall op :: op in b.ops ==> op in issued' && issued'[op] == issued[op]
    ensures Whole(b, issued')
  {
  }

  lemma BeginKeepsOps(s: State, p: Proc)
    requires OpsInv(s) && p !in s.issued
    ensures OpsInv(BeginStep(s, p))
  {
    var t := BeginStep(s, p);
    if Admits(s.mem) {
      ProjectForeign(s.batch.writes, p);
      assert t.batch.writes == s.batch.writes;
      forall i | 0 <= i < |s.durable| ensures Whole(t.durable[i], t.issued) && t.durable[i].ops !! t.batch.ops {
        WholeGrows(s.durable[i], s.issued, t.issued);
      }
    }
  }

  lemma LogKeepsOps(s: State, p: Proc, b: nat, data: Block)
    requires OpsInv(s) && p in s.active && p in s.issued
    ensures OpsInv(LogStep(s, p, b, data))
  {
    var t := LogStep(s, p, b, data);
    if LogWrite(s.mem, b, data).Done? {
      forall i | 0 <= i < |s.durable| ensures Whole(t.durable[i], t.issued) {
        assert p !in s.durable[i].ops;
        WholeGrows(s.durable[i], s.issued, t.issued);
      }
      assert t.batch.writes[..|s.batch.writes|] == s.batch.writes;
      assert t.active.Keys == s.active.Keys;
    } else {
      assert t.batch == NoBatch;
    }
  }

  lemma CommitKeepsOps(s: State, t: State)
    requires OpsInv(s) && t.issued == s.issued && t.active.Keys <= t.batch.ops
    requires (t.durable == s.durable + [s.batch] && t.batch == NoBatch) || (t.durable == s.durable && (t.batch == s.batch || t.batch == NoBatch))
    ensures OpsInv(t)
  {
  }

  lemma EndKeepsOps(start: nat, s: State, p: Proc)
    requires Enabled(start, s, End(p)) && OpsInv(s)
    ensures OpsInv(EndStep(start, s, p))
  {
    hide WellFormed;
    hide Consistent;
    CommitKeepsOps(s, EndStep(start, s, p));
  }

  lemma CommitWriteKeepsOps(start: nat, home: Image, s: State)
    requires Inv(start, home, s) && Enabled(start, s, CommitWrite) && OpsInv(s)
    ensures OpsInv(CommitWriteStep(s))
  {
    hide WellFormed;
    hide Consistent;
    CommitKeepsOps(s, CommitWriteStep(s));
  }

  lemma CommitDoneKeepsOps(start: nat, home: Image, s: State)
    requires Inv(start, home, s) && Enabled(start, s, CommitDone) && OpsInv(s)
    ensures OpsInv(CommitDoneStep(s))
  {
    hide WellFormed;
    hide Consistent;
    CommitKeepsOps(s, CommitDoneStep(s));
  }

  lemma StepKeepsOps(start: nat, home: Image, s: State, step: Step)
    requires Inv(start, home, s) && Enabled(start, s, step) && OpsInv(s)
    ensures OpsInv(Do(start, s, step))
  {
    hide OpsInv;
    match step
    case Begin(p) => BeginKeepsOps(s, p);
    case Log(p, b, data) => LogKeepsOps(s, p, b, data);
    case End(p) => EndKeepsOps(start, s, p);
    case CommitWrite => CommitWriteKeepsOps(start, home, s);
    case CommitDone => CommitDoneKeepsOps(start, home, s);
    case Crash => CommitKeepsOps(s, CrashOf(s));
    case RecoverWrite => RecoveryKeepsOps(s, RecoverWriteStep(start, s));
    case RecoverDone => RecoveryKeepsOps(s, s.(phase := Running));
  }

  lemma RecoveryKeepsOps(s: State, t: State)
    requires OpsInv(s) && t.issued == s.issued && t.active == s.active && t.batch == s.batch && t.durable == s.durable
    ensures OpsInv(t)
  {
  }

  /** Atomicity of operations: in every state of every run, an operation that appears in a
      committed batch appears in no other, every write it ever issued is in that batch in the
      order it was issued, and the operation is no longer running. */
  lemma {:induction false} OperationsAreWhole(start: nat, home: Image, run: seq<State>, steps: seq<Step>, i: nat)
    requires IsRun(start, home, run, steps) && i < |run|
    ensures OpsInv(run[i])
    ensures forall k, op :: 0 <= k < |run[i].durable| && op in run[i].durable[k].ops ==>
              op in run[i].issued && Project(run[i].durable[k].writes, op) == run[i].issued[op] && op !in run[i].active
  {
    if i > 0 {
      OperationsAreWhole(start, home, run, steps, i - 1);
      RunsKeepInv(start, home, run, steps, i - 1);
      StepKeepsOps(start, home, run[i - 1], steps[i - 1]);
    }
  }

  // ---- log space and sleepers --------------------------------------------------------------

  // Blocks the running operations have logged so far, counted per operation.
  ghost function Used(active: map<Proc, set<nat>>): nat
    decreases |active|
  {
    if active == map[] then 0
    else
      var p :| p in active;
      assert (active - {p}).Keys == active.Keys - {p};
      |active[p]| + Used(active - {p})
  }

  lemma {:induction false} UsedSplit(active: map<Proc, set<nat>>, p: Proc)
    requires p in active
    ensures Used(active) == |active[p]| + Used(active - {p})
    decreases |active|
  {
    var q :| q in active && Used(active) == |active[q]| + Used(active - {q});
    assert (active - {q}).Keys == active.Keys - {q};
    if p != q {
      UsedSplit(active - {q}, p);
      assert (active - {p}).Keys == active.Keys - {p};
      UsedSplit(active - {p}, q);
      assert active - {p} - {q} == active - {q} - {p};
    }
  }

  lemma UsedUpdate(active: map<Proc, set<nat>>, p: Proc, s: set<nat>)
    ensures Used(active[p := s]) == |s| + Used(active - {p})
  {
    UsedSplit(active[p := s], p);
    assert active[p := s] - {p} == active - {p};
  }

  // What is in the log, plus what running operations may still add, fits in the log.
  ghost predicate SpaceInv(s: State) {
    && |s.mem.blocks| + |s.active| * MAXOPBLOCKS <= LOGBLOCKS + Used(s.active)
    && (forall p :: p in s.active ==> |s.active[p]| <= MAXOPBLOCKS)
    && (forall p, b :: p in s.active && b in s.active[p] ==> b in s.mem.blocks)
  }

  lemma {:induction false} UsedBounded(active: map<Proc, set<nat>>)
    requires forall p :: p in active ==> |active[p]| <= MAXOPBLOCKS
    ensures Used(active) <= |active| * MAXOPBLOCKS
    decreases |active|
  {
    if active != map[] {
      var p :| p in active;
      UsedSplit(active, p);
      assert (active - {p}).Keys == active.Keys - {p};
      assert |active - {p}| == |active| - 1;
      UsedBounded(active - {p});
    }
  }

  /** The reservation works: when every operation logs at most MAXOPBLOCKS distinct blocks, a
      log_write that appends always finds room, so log_write panics exactly when the log is
      full, and then only for a block that is in the log already. */
  lemma AppendFindsRoom(start: nat, s: State, p: Proc, b: nat, data: Block)
    requires SpaceInv(s) && Enabled(start, s, Log(p, b, data))
    ensures b !in s.mem.blocks ==> |s.mem.blocks| < LOGBLOCKS
    ensures LogWrite(s.mem, b, data).Panic? <==> |s.mem.blocks| == LOGBLOCKS
    ensures LogWrite(s.mem, b, data).Panic? ==> b in s.mem.blocks
  {
    assert p in s.active.Keys;
    if b !in s.mem.blocks {
      assert b !in s.active[p];
      UsedSplit(s.active, p);
      var rest := s.active - {p};
      assert rest.Keys == s.active.Keys - {p} && |rest| == |s.active| - 1;
      UsedBounded(rest);
    }
  }

  lemma BeginKeepsSpace(s: State, p: Proc)
    requires SpaceInv(s) && p !in s.active && s.mem.outstanding == |s.active|
    ensures SpaceInv(BeginStep(s, p))
  {
    var t := BeginStep(s, p);
    if Admits(s.mem) {
      UsedUpdate(s.active, p, {});
      assert s.active - {p} == s.active;
      assert t.active.Keys == s.active.Keys + {p};
      assert |t.active| == |s.active| + 1;
      UsedBounded(s.active);
    }
  }

  lemma LogKeepsSpace(start: nat, s: State, p: Proc, b: nat, data: Block)
    requires SpaceInv(s) && Enabled(start, s, Log(p, b, data))
    ensures SpaceInv(LogStep(s, p, b, data))
  {
    var t := LogStep(s, p, b, data);
    if LogWrite(s.mem, b, data).Done? {
      UsedSplit(s.active, p);
      UsedUpdate(s.active, p, s.active[p] + {b});
      assert t.active.Keys == s.active.Keys;
      assert |t.active| == |s.active|;
      if b !in s.mem.blocks {
        assert b !in s.active[p];
      } else {
        SetGrows(s.active[p], b);
      }
    }
  }

  lemma SetGrows(s: set<nat>, b: nat)
    ensures |s| <= |s + {b}| <= |s| + 1
  {
    if b in s { assert s + {b} == s; }
  }

  lemma EndKeepsSpace(start: nat, s: State, p: Proc)
    requires SpaceInv(s) && Sound(start, s) && p in s.active
    ensures SpaceInv(EndStep(start, s, p))
  {
    var t := EndStep(start, s, p);
    UsedSplit(s.active, p);
    assert (s.active - {p}).Keys == s.active.Keys - {p};
    assert |s.active - {p}| == |s.active| - 1;
  }

  lemma StepKeepsSpace(start: nat, home: Image, s: State, step: Step)
    requires Inv(start, home, s) && SpaceInv(s) && Enabled(start, s, step)
    ensures SpaceInv(Do(start, s, step))
  {
    match step
    case Begin(p) => BeginKeepsSpace(s, p);
    case Log(p, b, data) => LogKeepsSpace(start, s, p, b, data);
    case End(p) => EndKeepsSpace(start, s, p);
    case CommitDone => assert s.active == map[];
    case CommitWrite | Crash | RecoverWrite | RecoverDone =>
  }

  // A process asleep in begin_op could not enter now either.
  ghost predicate SleepInv(s: State) {
    s.mem.sleepers != {} ==> s.mem.committing || |s.mem.blocks| + (|s.active| + 1) * 10 > 30
  }

  lemma BeginKeepsSleep(start: nat, home: Image, s: State, p: Proc)
    requires Inv(start, home, s) && SleepInv(s) && Enabled(start, s, Begin(p))
    ensures SleepInv(BeginStep(s, p))
  {
    if Admits(s.mem) {
      var t := BeginStep(s, p);
      assert s.active.Keys <= t.active.Keys;
      assert t.active.Keys == s.active.Keys + {p} && |t.active| == |t.active.Keys|;
    }
  }

  lemma EndKeepsSleep(start: nat, s: State, p: Proc)
    requires Sound(start, s) && SleepInv(s) && s.phase.Running? && p in s.active
    ensures SleepInv(EndStep(start, s, p))
  {
    assert (s.active - {p}).Keys == s.active.Keys - {p};
    assert |(s.active - {p}).Keys| == |s.active.Keys| - 1;
  }

  lemma LogKeepsSleep(s: State, p: Proc, b: nat, data: Block)
    requires SleepInv(s) && p in s.active && p in s.issued
    ensures SleepInv(LogStep(s, p, b, data))
  {
    var t := LogStep(s, p, b, data);
    if LogWrite(s.mem, b, data).Done? {
      assert t.active.Keys == s.active.Keys;
      assert |t.active| == |t.active.Keys| == |s.active|;
    }
  }

  // So there is something it waits for.
  lemma SleepersWait(start: nat, home: Image, s: State)
    requires Inv(start, home, s) && SleepInv(s) && s.mem.sleepers != {}
    ensures s.phase.Committing? || s.active != map[]
    ensures s.phase.Committing? || |s.mem.blocks| + (|s.active| + 1) * 10 > 30
  {
    hide WellFormed;
    hide Consistent;
    hide Replay;
    assert s.phase.Running? && s.active == map[] ==> s.mem.blocks == [];
  }

  lemma StepKeepsSleep(start: nat, home: Image, s: State, step: Step)
    requires Inv(start, home, s) && SleepInv(s) && Enabled(start, s, step)
    ensures SleepInv(Do(start, s, step))
  {
    match step
    case Begin(p) => BeginKeepsSleep(start, home, s, p);
    case End(p) => EndKeepsSleep(start, s, p);
    case Log(p, b, data) => LogKeepsSleep(s, p, b, data);
    case CommitWrite | CommitDone | Crash | RecoverWrite | RecoverDone =>
  }

  lemma BootSpace(home: Image)
    ensures SpaceInv(Boot(home)) && SleepInv(Boot(home))
  {
  }

  /** In every state of every run the reservations fit in the log, so an appending log_write
      finds room. Nobody sleeps in begin_op unless a commit is running or an operation is outstanding,
      either of which ends in a wakeup, nor while there is room for one more operation. */
  lemma {:induction false} LogSpaceAndSleep(start: nat, home: Image, run: seq<State>, steps: seq<Step>, i: nat)
    requires IsRun(start, home, run, steps) && i < |run|
    ensures SpaceInv(run[i]) && SleepInv(run[i])
    ensures run[i].mem.sleepers != {} ==>
              run[i].phase.Committing? || (run[i].active != map[] && |run[i].mem.blocks| + (|run[i].active| + 1) * 10 > 30)
    ensures i < |steps| && steps[i].Log? && steps[i].b !in run[i].mem.blocks ==> |run[i].mem.blocks| < LOGBLOCKS
  {
    hide Inv;
    hide SpaceInv;
    hide SleepInv;
    hide Do;
    if i == 0 {
      BootSpace(home);
    } else {
      LogSpaceAndSleep(start, home, run, steps, i - 1);
      RunsKeepInv(start, home, run, steps, i - 1);
      StepKeepsSpace(start, home, run[i - 1], steps[i - 1]);
      StepKeepsSleep(start, home, run[i - 1], steps[i - 1]);
    }
    if run[i].mem.sleepers != {} {
      RunsKeepInv(start, home, run, steps, i);
      SleepersWait(start, home, run[i]);
    }
    if i < |steps| && steps[i].Log? {
      AppendFindsRoom(start, run[i], steps[i].p, steps[i].b, steps[i].data);
    }
  }
}
