/** pipe.c as a state machine: any number of readers and writers of one pipe, which run one at a time
    under the pipe's lock and let go of it only to sleep or to return. */
module PipeRuns {

  const PIPESIZE: nat := 512

  // The bytes of the pipe and its counters, which are 32-bit.
  datatype Pipe = Pipe(data: seq<nat>, nread: nat, nwrite: nat, readopen: bool, writeopen: bool)

  ghost predicate Shaped(p: Pipe) { |p.data| == PIPESIZE && p.nread < 0x1_0000_0000 && p.nwrite < 0x1_0000_0000 }

  function Inc(n: nat): nat { (n + 1) % 0x1_0000_0000 }

  ghost predicate IsFull(p: Pipe) { p.nwrite == (p.nread + PIPESIZE) % 0x1_0000_0000 }

  ghost predicate IsEmpty(p: Pipe) { p.nread == p.nwrite }

  ghost function Put(p: Pipe, ch: nat): (q: Pipe)
    requires Shaped(p)
    ensures Shaped(q)
  {
    p.(data := p.data[p.nwrite % PIPESIZE := ch], nwrite := Inc(p.nwrite))
  }

  // ---- one turn under the lock -------------------------------------------------------------

  datatype Ending =
    | Sleeps          // on nwrite or on nread
    | Finishes        // with a wakeup
    | Fails           // -1, without one

  datatype Turn = Turn(p: Pipe, i: nat, ending: Ending)

  // pipewrite's loop from byte i on. The caller is killed from byte `killed` on, and copyin fails
  // from byte `bad` on.
  ghost function WriteLoop(p: Pipe, bytes: seq<nat>, i: nat, killed: nat, bad: nat): Turn
    requires Shaped(p) && i <= |bytes|
    decreases |bytes| - i
  {
    if i == |bytes| then Turn(p, i, Finishes)
    else if !p.readopen || i >= killed then Turn(p, i, Fails)
    else if IsFull(p) then Turn(p, i, Sleeps)
    else if i >= bad then Turn(p, i, Finishes)
    else WriteLoop(Put(p, bytes[i]), bytes, i + 1, killed, bad)
  }

  // piperead's copying loop from byte i of n on; copyout fails from byte `bad` on.
  ghost function ReadLoop(p: Pipe, i: nat, n: nat, bad: nat, got: seq<nat>): (Pipe, seq<nat>)
    requires Shaped(p) && i <= n
    decreases n - i
  {
    if i == n || IsEmpty(p) || i >= bad then (p, got)
    else ReadLoop(p.(nread := Inc(p.nread)), i + 1, n, bad, got + [p.data[p.nread % PIPESIZE]])
  }

  // ---- the system --------------------------------------------------------------------------

  datatype Chan = NRead | NWrite

  // What a process inside pipewrite or piperead has left to do.
  datatype Call = Write(bytes: seq<nat>, i: nat) | Read(n: nat)

  datatype Proc = Ready(call: Call) | Asleep(call: Call, chan: Chan)

  datatype System = System(
    p: Pipe,
    procs: map<nat, Proc>,
    // history
    deposited: seq<nat>,
    delivered: seq<nat>)

  datatype Step =
    | Call(pid: nat, call: Call)
    | WriteTurn(pid: nat, killed: nat, bad: nat)
    | ReadTurn(pid: nat, dying: bool, bad: nat)
    | Rouse(pid: nat)                             // kkill makes a sleeper runnable
    | Close(writable: bool)

  ghost function Wakeup(procs: map<nat, Proc>, chan: Chan): map<nat, Proc> {
    map pid | pid in procs :: if procs[pid].Asleep? && procs[pid].chan == chan then Ready(procs[pid].call) else procs[pid]
  }

  ghost predicate Runs(s: System, pid: nat) { pid in s.procs && s.procs[pid].Ready? }

  ghost predicate Enabled(s: System, step: Step) {
    Shaped(s.p) && (s.p.readopen || s.p.writeopen)       // else the pipe has been freed
    && match step
       case Call(pid, call) =>
         && pid !in s.procs && (call.Write? ==> call.i == 0 && s.p.writeopen) && (call.Read? ==> s.p.readopen)
       case WriteTurn(pid, _, _) => Runs(s, pid) && s.procs[pid].call.Write? && s.procs[pid].call.i <= |s.procs[pid].call.bytes|
       case ReadTurn(pid, _, _) => Runs(s, pid) && s.procs[pid].call.Read?
       case Rouse(pid) => pid in s.procs && s.procs[pid].Asleep?
       case Close(writable) =>
         // the caller's file reference keeps its end open
         && (if writable then s.p.writeopen else s.p.readopen)
         && forall pid :: pid in s.procs ==> s.procs[pid].call.Write? != writable
  }

  ghost function WriteStep(s: System, pid: nat, killed: nat, bad: nat): System
    requires Enabled(s, WriteTurn(pid, killed, bad))
  {
    var c := s.procs[pid].call;
    var t := WriteLoop(s.p, c.bytes, c.i, killed, bad);
    var others := s.procs - {pid};
    s.(p := t.p,
       deposited := if c.i <= t.i <= |c.bytes| then s.deposited + c.bytes[c.i..t.i] else s.deposited,
       procs := match t.ending
                case Sleeps => Wakeup(others, NRead)[pid := Asleep(Write(c.bytes, t.i), NWrite)]
                case Finishes => Wakeup(others, NRead)
                case Fails => others)
  }

  ghost function ReadStep(s: System, pid: nat, killed: bool, bad: nat): System
    requires Enabled(s, ReadTurn(pid, killed, bad))
  {
    var others := s.procs - {pid};
    if IsEmpty(s.p) && s.p.writeopen then
      s.(procs := if killed then others else s.procs[pid := Asleep(s.procs[pid].call, NRead)])
    else
      var r := ReadLoop(s.p, 0, s.procs[pid].call.n, bad, []);
      s.(p := r.0, delivered := s.delivered + r.1, procs := Wakeup(others, NWrite))
  }

  ghost function CloseStep(s: System, writable: bool): System {
    if writable then s.(p := s.p.(writeopen := false), procs := Wakeup(s.procs, NRead))
    else s.(p := s.p.(readopen := false), procs := Wakeup(s.procs, NWrite))
  }

  ghost function Do(s: System, step: Step): System
    requires Enabled(s, step)
  {
    match step
    case Call(pid, call) => s.(procs := s.procs[pid := Ready(call)])
    case WriteTurn(pid, killed, bad) => WriteStep(s, pid, killed, bad)
    case ReadTurn(pid, killed, bad) => ReadStep(s, pid, killed, bad)
    case Rouse(pid) => s.(procs := s.procs[pid := Ready(s.procs[pid].call)])
    case Close(writable) => CloseStep(s, writable)
  }

  // ---- the bytes ---------------------------------------------------------------------------

  // What has been deposited is what has been delivered and then the pipe's contents.
  ghost predicate Fifo(p: Pipe, deposited: seq<nat>, delivered: seq<nat>) {
    && Shaped(p) && delivered <= deposited && |deposited| - |delivered| <= PIPESIZE
    && p.nread == |delivered| % 0x1_0000_0000 && p.nwrite == |deposited| % 0x1_0000_0000
    && forall k :: |delivered| <= k < |deposited| ==> p.data[k % PIPESIZE] == deposited[k]
  }

  // A counter's slot is the same however often the counter has wrapped.
  lemma SlotOf(n: nat)
    ensures n % 0x1_0000_0000 % PIPESIZE == n % PIPESIZE
  {
    var q := n / 0x1_0000_0000;
    assert n == q * 0x1_0000_0000 + n % 0x1_0000_0000;
    assert n == PIPESIZE * (q * 0x80_0000) + n % 0x1_0000_0000;
  }

  // The tests of the wrapped counters tell full and empty.
  lemma CountersTell(p: Pipe, deposited: seq<nat>, delivered: seq<nat>)
    requires Fifo(p, deposited, delivered)
    ensures IsFull(p) <==> |deposited| - |delivered| == PIPESIZE
    ensures IsEmpty(p) <==> deposited == delivered
  {
    Wraps(|delivered|, |deposited|);
    if |deposited| == |delivered| { assert deposited[..|delivered|] == delivered; }
  }

  lemma Wraps(r: nat, w: nat)
    requires r <= w <= r + PIPESIZE
    ensures r % 0x1_0000_0000 == w % 0x1_0000_0000 <==> r == w
    ensures w % 0x1_0000_0000 == (r % 0x1_0000_0000 + PIPESIZE) % 0x1_0000_0000 <==> w == r + PIPESIZE
  {
  }

  lemma SlotsApart(a: nat, b: nat)
    requires a < b < a + PIPESIZE
    ensures a % PIPESIZE != b % PIPESIZE
  {
  }

  lemma PutKeepsFifo(p: Pipe, ch: nat, deposited: seq<nat>, delivered: seq<nat>)
    requires Fifo(p, deposited, delivered) && !IsFull(p)
    ensures Fifo(Put(p, ch), deposited + [ch], delivered)
  {
    CountersTell(p, deposited, delivered);
    SlotOf(|deposited|);
    var q, more := Put(p, ch), deposited + [ch];
    forall k | |delivered| <= k < |more| ensures q.data[k % PIPESIZE] == more[k] {
      if k < |deposited| { SlotsApart(k, |deposited|); }
    }
    Bump(|deposited|);
  }

  lemma Bump(n: nat)
    ensures Inc(n % 0x1_0000_0000) == (n + 1) % 0x1_0000_0000
  {
  }

  lemma TakeKeepsFifo(p: Pipe, deposited: seq<nat>, delivered: seq<nat>)
    requires Fifo(p, deposited, delivered) && !IsEmpty(p)
    ensures Fifo(p.(nread := Inc(p.nread)), deposited, delivered + [p.data[p.nread % PIPESIZE]])
  {
    CountersTell(p, deposited, delivered);
    SlotOf(|delivered|);
    Bump(|delivered|);
    assert p.data[|delivered| % PIPESIZE] == deposited[|delivered|];
  }

  /** A writer's turn deposits the next bytes of its buffer in order, and keeps the pipe a queue. It
      sleeps only when the pipe is full and its read end open. */
  lemma {:induction false} WriteLoopPuts(p: Pipe, bytes: seq<nat>, i: nat, killed: nat, bad: nat, deposited: seq<nat>, delivered: seq<nat>)
    requires Fifo(p, deposited, delivered) && i <= |bytes|
    ensures var t := WriteLoop(p, bytes, i, killed, bad);
            && i <= t.i <= |bytes| && Fifo(t.p, deposited + bytes[i..t.i], delivered)
            && t.p.readopen == p.readopen && t.p.writeopen == p.writeopen
            && (t.ending.Sleeps? ==> IsFull(t.p) && p.readopen)
            && (t.i > i ==> p.readopen && !IsFull(p))
    decreases |bytes| - i
  {
    hide Fifo;
    FifoShaped(p, deposited, delivered);
    var t := WriteLoop(p, bytes, i, killed, bad);
    if i < |bytes| && p.readopen && i < killed && !IsFull(p) && i < bad {
      PutKeepsFifo(p, bytes[i], deposited, delivered);
      WriteLoopPuts(Put(p, bytes[i]), bytes, i + 1, killed, bad, deposited + [bytes[i]], delivered);
      assert (deposited + [bytes[i]]) + bytes[i + 1..t.i] == deposited + bytes[i..t.i];
    } else {
      assert deposited + bytes[i..i] == deposited;
    }
  }

  lemma FifoShaped(p: Pipe, deposited: seq<nat>, delivered: seq<nat>)
    requires Fifo(p, deposited, delivered)
    ensures Shaped(p)
  {
  }

  /** A reader's turn takes the oldest bytes in order: as many as it asked for, unless copyout fails
      or the pipe runs empty. */
  lemma {:induction false} ReadLoopTakes(p: Pipe, i: nat, n: nat, bad: nat, got: seq<nat>, deposited: seq<nat>, delivered: seq<nat>)
    requires Fifo(p, deposited, delivered) && i <= n
    ensures var r := ReadLoop(p, i, n, bad, got);
            && got <= r.1 && Fifo(r.0, deposited, delivered + r.1[|got|..])
            && r.0.readopen == p.readopen && r.0.writeopen == p.writeopen
            && |r.1| - |got| <= n - i && (|r.1| - |got| < n - i ==> IsEmpty(r.0) || i + |r.1| - |got| >= bad)
    decreases n - i
  {
    hide Fifo;
    FifoShaped(p, deposited, delivered);
    if i < n && !IsEmpty(p) && i < bad {
      var ch := p.data[p.nread % PIPESIZE];
      TakeKeepsFifo(p, deposited, delivered);
      ReadLoopTakes(p.(nread := Inc(p.nread)), i + 1, n, bad, got + [ch], deposited, delivered + [ch]);
      var r := ReadLoop(p, i, n, bad, got);
      assert delivered + [ch] + r.1[|got| + 1..] == delivered + r.1[|got|..];
    } else {
      assert got[|got|..] == [] && delivered + [] == delivered;
    }
  }

  // ---- sleepers ----------------------------------------------------------------------------

  ghost predicate AsleepOn(procs: map<nat, Proc>, pid: nat, chan: Chan) {
    pid in procs && procs[pid].Asleep? && procs[pid].chan == chan
  }

  ghost predicate Sleepers(s: System) {
    && (forall pid :: AsleepOn(s.procs, pid, NWrite) ==> IsFull(s.p) && s.p.readopen)
    && (forall pid :: AsleepOn(s.procs, pid, NRead) ==> s.p.writeopen)
    && (forall pid :: pid in s.procs ==> ProcOk(s.procs[pid]))
  }

  ghost predicate ProcOk(proc: Proc) {
    (proc.Asleep? ==> (proc.chan == NWrite <==> proc.call.Write?)) && (proc.call.Write? ==> proc.call.i <= |proc.call.bytes|)
  }

  ghost predicate Inv(s: System) { Fifo(s.p, s.deposited, s.delivered) && Sleepers(s) }

  lemma WokenUp(procs: map<nat, Proc>, chan: Chan)
    ensures Wakeup(procs, chan).Keys == procs.Keys
    ensures forall pid :: !AsleepOn(Wakeup(procs, chan), pid, chan)
    ensures forall pid :: pid in procs ==> Wakeup(procs, chan)[pid] == procs[pid] || Wakeup(procs, chan)[pid] == Ready(procs[pid].call)
  {
  }

  // One process has changed, or left, after a wakeup or without one.
  lemma OneChanged(procs: map<nat, Proc>, procs': map<nat, Proc>, pid: nat)
    requires forall q :: q in procs' && q != pid ==> q in procs && (procs'[q] == procs[q] || procs'[q] == Ready(procs[q].call))
    ensures forall q, c :: AsleepOn(procs', q, c) && q != pid ==> AsleepOn(procs, q, c)
    ensures forall q :: q in procs' && q != pid && ProcOk(procs[q]) ==> ProcOk(procs'[q])
  {
  }

  lemma WriteKeepsInv(s: System, pid: nat, killed: nat, bad: nat)
    requires Inv(s) && Enabled(s, WriteTurn(pid, killed, bad))
    ensures Inv(WriteStep(s, pid, killed, bad))
  {
    hide Fifo;
    hide WriteLoop;
    hide Wakeup;
    hide IsFull;
    hide IsEmpty;
    var c := s.procs[pid].call;
    WriteLoopPuts(s.p, c.bytes, c.i, killed, bad, s.deposited, s.delivered);
    NoPutNoChange(s.p, c.bytes, c.i, killed, bad);
    WokenUp(s.procs - {pid}, NRead);
    assert ProcOk(s.procs[pid]);
    var t := WriteStep(s, pid, killed, bad);
    OneChanged(s.procs, t.procs, pid);
    forall q | AsleepOn(t.procs, q, NWrite) ensures IsFull(t.p) && t.p.readopen {
      if q != pid { assert AsleepOn(s.procs, q, NWrite); }
    }
    forall q | AsleepOn(t.procs, q, NRead) ensures t.p.writeopen { assert AsleepOn(s.procs, q, NRead); }
  }

  lemma NoPutNoChange(p: Pipe, bytes: seq<nat>, i: nat, killed: nat, bad: nat)
    requires Shaped(p) && i <= |bytes|
    ensures WriteLoop(p, bytes, i, killed, bad).i >= i
    ensures WriteLoop(p, bytes, i, killed, bad).i == i ==> WriteLoop(p, bytes, i, killed, bad).p == p
    decreases |bytes| - i
  {
    if i < |bytes| { NoPutNoChange(Put(p, bytes[i]), bytes, i + 1, killed, bad); }
  }

  lemma ReadKeepsInv(s: System, pid: nat, killed: bool, bad: nat)
    requires Inv(s) && Enabled(s, ReadTurn(pid, killed, bad))
    ensures Inv(ReadStep(s, pid, killed, bad))
  {
    hide Fifo;
    hide ReadLoop;
    hide Wakeup;
    hide IsFull;
    var others := s.procs - {pid};
    WokenUp(others, NWrite);
    assert ProcOk(s.procs[pid]);
    OneChanged(s.procs, ReadStep(s, pid, killed, bad).procs, pid);
    if IsEmpty(s.p) && s.p.writeopen {
    } else {
      ReadLoopTakes(s.p, 0, s.procs[pid].call.n, bad, [], s.deposited, s.delivered);
      EmptyStays(s.p, s.procs[pid].call.n, bad);
    }
  }

  lemma EmptyStays(p: Pipe, n: nat, bad: nat)
    requires Shaped(p)
    ensures IsEmpty(p) ==> ReadLoop(p, 0, n, bad, []) == (p, [])
  {
  }

  lemma CloseKeepsInv(s: System, writable: bool)
    requires Inv(s) && Enabled(s, Close(writable))
    ensures Inv(CloseStep(s, writable))
  {
    hide Wakeup;
    WokenUp(s.procs, NRead);
    WokenUp(s.procs, NWrite);
    var chan := if writable then NRead else NWrite;
    forall q, c | AsleepOn(Wakeup(s.procs, chan), q, c) ensures AsleepOn(s.procs, q, c) && c != chan {
    }
  }

  lemma StepKeepsInv(s: System, step: Step)
    requires Inv(s) && Enabled(s, step)
    ensures Inv(Do(s, step))
  {
    hide Fifo;
    match step
    case Call(pid, call) =>
      OneChanged(s.procs, Do(s, step).procs, pid);
    case WriteTurn(pid, killed, bad) => WriteKeepsInv(s, pid, killed, bad);
    case ReadTurn(pid, killed, bad) => ReadKeepsInv(s, pid, killed, bad);
    case Rouse(pid) =>
      assert ProcOk(s.procs[pid]);
      OneChanged(s.procs, Do(s, step).procs, pid);
    case Close(writable) => CloseKeepsInv(s, writable);
  }

  // ---- runs --------------------------------------------------------------------------------

  // pipealloc.
  ghost function Opened(data: seq<nat>): System { System(Pipe(data, 0, 0, true, true), map[], [], []) }

  ghost predicate IsRun(run: seq<System>, steps: seq<Step>) {
    && |run| == |steps| + 1 && |run[0].p.data| == PIPESIZE && run[0] == Opened(run[0].p.data)
    && forall i :: 0 <= i < |steps| ==> Leads(run[i], steps[i], run[i + 1])
  }

  ghost predicate Leads(s: System, step: Step, t: System) { Enabled(s, step) && t == Do(s, step) }

  lemma {:induction false} RunsKeepInv(run: seq<System>, steps: seq<Step>, i: nat)
    requires IsRun(run, steps) && i < |run|
    ensures Inv(run[i])
  {
    if i > 0 {
      hide Inv;
      hide Do;
      RunsKeepInv(run, steps, i - 1);
      assert Leads(run[i - 1], steps[i - 1], run[i]);
      StepKeepsInv(run[i - 1], steps[i - 1]);
    }
  }

  // The bytes between the counters.
  ghost function Contents(p: Pipe): seq<nat>
    requires Shaped(p)
  {
    seq((p.nwrite - p.nread) % 0x1_0000_0000, k requires 0 <= k => p.data[(p.nread + k) % PIPESIZE])
  }

  /** A pipe is first-in first-out for any number of readers and writers: what has been deposited is
      what has been delivered, followed by the at most PIPESIZE bytes between the wrapped counters. */
  lemma PipeIsFifo(run: seq<System>, steps: seq<Step>, i: nat)
    requires IsRun(run, steps) && i < |run|
    ensures Shaped(run[i].p) && |Contents(run[i].p)| <= PIPESIZE
    ensures run[i].deposited == run[i].delivered + Contents(run[i].p)
  {
    hide IsRun;
    RunsKeepInv(run, steps, i);
    FifoContents(run[i].p, run[i].deposited, run[i].delivered);
  }

  lemma FifoContents(p: Pipe, deposited: seq<nat>, delivered: seq<nat>)
    requires Fifo(p, deposited, delivered)
    ensures |Contents(p)| == |deposited| - |delivered| && deposited == delivered + Contents(p)
  {
    Backlog(|delivered|, |deposited|);
    var c := Contents(p);
    forall k | 0 <= k < |c| ensures c[k] == deposited[|delivered| + k] { SlotFrom(|delivered|, k); }
  }

  lemma Backlog(r: nat, w: nat)
    requires r <= w <= r + PIPESIZE
    ensures (w % 0x1_0000_0000 - r % 0x1_0000_0000) % 0x1_0000_0000 == w - r
  {
  }

  lemma SlotFrom(n: nat, k: nat)
    ensures (n % 0x1_0000_0000 + k) % PIPESIZE == (n + k) % PIPESIZE
  {
    var q := n / 0x1_0000_0000;
    assert n + k == PIPESIZE * (q * 0x80_0000) + (n % 0x1_0000_0000 + k);
  }

  /** Whenever the lock is free, a writer sleeps only on a full pipe whose read end is open. */
  lemma WritersSleepWhenFull(run: seq<System>, steps: seq<Step>, i: nat, pid: nat)
    requires IsRun(run, steps) && i < |run| && AsleepOn(run[i].procs, pid, NWrite)
    ensures |run[i].deposited| - |run[i].delivered| == PIPESIZE && run[i].p.readopen
  {
    RunsKeepInv(run, steps, i);
    CountersTell(run[i].p, run[i].deposited, run[i].delivered);
  }

  // ---- sleeping readers --------------------------------------------------------------------

  // No reader sleeps while there are bytes for it.
  ghost predicate ReadersServed(s: System) { forall pid :: AsleepOn(s.procs, pid, NRead) ==> IsEmpty(s.p) }

  ghost predicate ReaderSleeps(s: System) { exists pid :: AsleepOn(s.procs, pid, NRead) }

  // The step is a turn of a writer who is killed after he has deposited something, and before a
  // wakeup, while a reader sleeps.
  ghost predicate Forgets(s: System, step: Step) {
    && Enabled(s, step) && step.WriteTurn? && ReaderSleeps(s)
    && (var c := s.procs[step.pid].call;
        var t := WriteLoop(s.p, c.bytes, c.i, step.killed, step.bad);
        t.ending.Fails? && t.i > c.i)
  }

  lemma OthersSleep(procs: map<nat, Proc>, pid: nat, q: nat, chan: Chan)
    requires pid in procs && procs[pid].Ready?
    ensures AsleepOn(procs - {pid}, q, chan) <==> AsleepOn(procs, q, chan)
  {
  }

  lemma WriteForgets(s: System, pid: nat, killed: nat, bad: nat)
    requires Inv(s) && ReadersServed(s) && Enabled(s, WriteTurn(pid, killed, bad))
    ensures !ReadersServed(WriteStep(s, pid, killed, bad)) <==> Forgets(s, WriteTurn(pid, killed, bad))
  {
    hide Fifo;
    hide WriteLoop;
    hide Wakeup;
    hide IsFull;
    hide IsEmpty;
    var c, others := s.procs[pid].call, s.procs - {pid};
    var t, u := WriteLoop(s.p, c.bytes, c.i, killed, bad), WriteStep(s, pid, killed, bad);
    WriteLoopPuts(s.p, c.bytes, c.i, killed, bad, s.deposited, s.delivered);
    NoPutNoChange(s.p, c.bytes, c.i, killed, bad);
    if t.ending.Fails? {
      if t.i > c.i { PutLeavesBytes(s.p, t.p, s.deposited, c.bytes[c.i..t.i], s.delivered); }
      forall q ensures AsleepOn(u.procs, q, NRead) <==> AsleepOn(s.procs, q, NRead) { OthersSleep(s.procs, pid, q, NRead); }
      if q :| AsleepOn(s.procs, q, NRead) { assert AsleepOn(u.procs, q, NRead); }
    } else {
      WokenUp(others, NRead);
      forall q ensures !AsleepOn(u.procs, q, NRead) { assert !AsleepOn(Wakeup(others, NRead), q, NRead); }
    }
  }

  lemma PutLeavesBytes(p: Pipe, q: Pipe, deposited: seq<nat>, more: seq<nat>, delivered: seq<nat>)
    requires Fifo(p, deposited, delivered) && Fifo(q, deposited + more, delivered) && more != []
    ensures !IsEmpty(q)
  {
    CountersTell(q, deposited + more, delivered);
    assert |deposited + more| > |delivered|;
  }

  lemma ReadServes(s: System, pid: nat, dying: bool, bad: nat)
    requires Inv(s) && ReadersServed(s) && Enabled(s, ReadTurn(pid, dying, bad))
    ensures ReadersServed(ReadStep(s, pid, dying, bad))
  {
    hide Fifo;
    hide ReadLoop;
    hide Wakeup;
    hide IsFull;
    var t := ReadStep(s, pid, dying, bad);
    WokenUp(s.procs - {pid}, NWrite);
    OneChanged(s.procs, t.procs, pid);
    EmptyStays(s.p, if s.procs[pid].call.Read? then s.procs[pid].call.n else 0, bad);
    forall q | AsleepOn(t.procs, q, NRead) ensures IsEmpty(t.p) { assert q != pid ==> AsleepOn(s.procs, q, NRead); }
  }

  /** From a state in which no reader sleeps beside bytes, a step leads to one in which some reader
      does exactly when it is the turn of a writer who is killed after depositing something while a
      reader sleeps. */
  lemma ReaderForgottenIff(s: System, step: Step)
    requires Inv(s) && ReadersServed(s) && Enabled(s, step)
    ensures !ReadersServed(Do(s, step)) <==> Forgets(s, step)
  {
    hide Fifo;
    var t := Do(s, step);
    match step
    case Call(pid, call) => OneChanged(s.procs, t.procs, pid);
    case WriteTurn(pid, killed, bad) => WriteForgets(s, pid, killed, bad);
    case ReadTurn(pid, dying, bad) => ReadServes(s, pid, dying, bad);
    case Rouse(pid) => OneChanged(s.procs, t.procs, pid);
    case Close(writable) => CloseServes(s, writable);
  }

  lemma CloseServes(s: System, writable: bool)
    requires ReadersServed(s)
    ensures ReadersServed(CloseStep(s, writable))
  {
    hide Wakeup;
    WokenUp(s.procs, NRead);
    WokenUp(s.procs, NWrite);
    var t := CloseStep(s, writable);
    forall q | AsleepOn(t.procs, q, NRead) ensures IsEmpty(t.p) { assert AsleepOn(s.procs, q, NRead); }
  }

  /** A writer's turn that is not cut short by a kill, and closing the write end, leave no reader
      asleep at all: whoever had been forgotten is awake again. */
  lemma WakeupRecalls(s: System, step: Step)
    requires Inv(s) && Enabled(s, step)
    requires step == Close(true)
             || (step.WriteTurn? && var c := s.procs[step.pid].call; !WriteLoop(s.p, c.bytes, c.i, step.killed, step.bad).ending.Fails?)
    ensures !ReaderSleeps(Do(s, step))
  {
    hide Fifo;
    hide WriteLoop;
    hide Wakeup;
    var t := Do(s, step);
    WokenUp(s.procs, NRead);
    if step.WriteTurn? {
      WokenUp(s.procs - {step.pid}, NRead);
      forall q ensures !AsleepOn(t.procs, q, NRead) { assert !AsleepOn(Wakeup(s.procs - {step.pid}, NRead), q, NRead); }
    }
  }

  /** In a run readers sleep only on an empty pipe, in every state of it, if and only if no step of it
      is such a turn; and their write end is always open. */
  lemma ReadersSleepWhenEmpty(run: seq<System>, steps: seq<Step>)
    requires IsRun(run, steps)
    ensures (forall i :: 0 <= i < |run| ==> ReadersServed(run[i])) <==> forall i :: 0 <= i < |steps| ==> !Forgets(run[i], steps[i])
    ensures forall i, pid :: 0 <= i < |run| && AsleepOn(run[i].procs, pid, NRead) ==> run[i].p.writeopen
  {
    hide Fifo;
    hide ReadersServed;
    hide Do;
    hide Enabled;
    hide Forgets;
    forall i | 0 <= i < |run| ensures Inv(run[i]) { RunsKeepInv(run, steps, i); }
    forall i | 0 <= i < |steps| ensures Leads(run[i], steps[i], run[i + 1]) {
    }
    if forall i :: 0 <= i < |run| ==> ReadersServed(run[i]) {
      forall i | 0 <= i < |steps| ensures !Forgets(run[i], steps[i]) {
        assert ReadersServed(run[i]) && ReadersServed(run[i + 1]);
        ReaderForgottenIff(run[i], steps[i]);
      }
    }
    if forall i :: 0 <= i < |steps| ==> !Forgets(run[i], steps[i]) {
      forall i | 0 <= i < |run| ensures ReadersServed(run[i]) { ServedUpTo(run, steps, i); }
    }
  }

  lemma {:induction false} ServedUpTo(run: seq<System>, steps: seq<Step>, i: nat)
    requires IsRun(run, steps) && i < |run|
    requires forall j :: 0 <= j < |steps| ==> Leads(run[j], steps[j], run[j + 1]) && !Forgets(run[j], steps[j])
    ensures ReadersServed(run[i])
  {
    if i > 0 {
      hide Inv;
      hide Do;
      hide Enabled;
      hide Forgets;
      ServedUpTo(run, steps, i - 1);
      RunsKeepInv(run, steps, i - 1);
      assert Leads(run[i - 1], steps[i - 1], run[i]);
      ReaderForgottenIff(run[i - 1], steps[i - 1]);
    }
  }

  /** The exception is real: process 1 sleeps in piperead, process 2 deposits a byte and is killed
      before the next one, and process 1 sleeps on although the byte is there. */
  lemma KilledWriterForgetsReader(data: seq<nat>)
    requires |data| == PIPESIZE
    ensures exists run: seq<System>, steps: seq<Step> ::
              IsRun(run, steps) && |run| == 5 && AsleepOn(run[4].procs, 1, NRead) && run[4].deposited == [7] && run[4].delivered == []
  {
    var s0 := Opened(data);
    var steps := [Call(1, Read(1)), ReadTurn(1, false, 9), Call(2, Write([7, 8], 0)), WriteTurn(2, 1, 9)];
    var s1 := Do(s0, steps[0]);
    var s2 := Do(s1, steps[1]);
    var s3 := Do(s2, steps[2]);
    OneByte(s3.p);
    var s4 := Do(s3, steps[3]);
    var run := [s0, s1, s2, s3, s4];
    assert Leads(s0, steps[0], s1) && Leads(s1, steps[1], s2) && Leads(s2, steps[2], s3) && Leads(s3, steps[3], s4);
    assert AsleepOn(s4.procs, 1, NRead) && s4.deposited == [7] && s4.delivered == [];
    assert IsRun(run, steps);
  }

  lemma OneByte(p: Pipe)
    requires Shaped(p) && p.readopen && !IsFull(p)
    ensures WriteLoop(p, [7, 8], 0, 1, 9) == Turn(Put(p, 7), 1, Fails)
  {
    assert WriteLoop(Put(p, 7), [7, 8], 1, 1, 9) == Turn(Put(p, 7), 1, Fails);
  }
}
