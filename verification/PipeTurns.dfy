/** What one turn of a reader or a writer does to a pipe, byte by byte and sleeper by sleeper. */
module PipeTurns {
  import opened PipeRuns

  // How many bytes are in the pipe.
  ghost function Backlog(s: System): int { |s.deposited| - |s.delivered| }

  // Everybody else is as before, except that those asleep on `chan` are runnable.
  ghost predicate OthersWoken(procs: map<nat, Proc>, procs': map<nat, Proc>, pid: nat, chan: Chan) {
    && (forall q :: q in procs && q != pid ==>
          q in procs' && procs'[q] == if AsleepOn(procs, q, chan) then Ready(procs[q].call) else procs[q])
    && (forall q :: q in procs' && q != pid ==> q in procs)
  }

  // ---- the loops ---------------------------------------------------------------------------

  // Where pipewrite's loop stops, and why: from byte i to byte j nothing was in the way.
  ghost predicate StopsAt(p: Pipe, bytes: seq<nat>, i: nat, room: int, killed: nat, bad: nat, t: Turn) {
    && i <= t.i <= |bytes| && (t.i > i ==> p.readopen && t.i <= killed && t.i <= bad && t.i - i <= room)
    && t.ending == (if t.i == |bytes| then Finishes
                    else if !p.readopen || t.i >= killed then Fails
                    else if t.i - i == room then Sleeps
                    else Finishes)
    && (t.i < |bytes| && p.readopen && t.i < killed && t.i - i != room ==> t.i >= bad)
  }

  lemma {:induction false} WriteLoopStops(p: Pipe, bytes: seq<nat>, i: nat, killed: nat, bad: nat,
      deposited: seq<nat>, delivered: seq<nat>)
    requires Fifo(p, deposited, delivered) && i <= |bytes|
    ensures StopsAt(p, bytes, i, 512 - (|deposited| - |delivered|), killed, bad, WriteLoop(p, bytes, i, killed, bad))
    decreases |bytes| - i
  {
    hide Fifo;
    FifoShaped(p, deposited, delivered);
    CountersTell(p, deposited, delivered);
    RoomThere(p, deposited, delivered);
    if i < |bytes| && p.readopen && i < killed && !IsFull(p) && i < bad {
      PutKeepsFifo(p, bytes[i], deposited, delivered);
      WriteLoopStops(Put(p, bytes[i]), bytes, i + 1, killed, bad, deposited + [bytes[i]], delivered);
    }
  }

  lemma RoomThere(p: Pipe, deposited: seq<nat>, delivered: seq<nat>)
    requires Fifo(p, deposited, delivered)
    ensures 0 <= |deposited| - |delivered| <= 512
  {
  }

  lemma {:induction false} ReadLoopCounts(p: Pipe, i: nat, n: nat, bad: nat, got: seq<nat>, deposited: seq<nat>, delivered: seq<nat>)
    requires Fifo(p, deposited, delivered) && i <= n
    ensures var k := |ReadLoop(p, i, n, bad, got).1| - |got|;
            && 0 <= k <= n - i && k <= |deposited| - |delivered| && (k > 0 ==> i + k <= bad)
            && (i + k == n || k == |deposited| - |delivered| || i + k >= bad)
    decreases n - i
  {
    hide Fifo;
    FifoShaped(p, deposited, delivered);
    CountersTell(p, deposited, delivered);
    RoomThere(p, deposited, delivered);
    if i < n && !IsEmpty(p) && i < bad {
      var ch := p.data[p.nread % PIPESIZE];
      TakeKeepsFifo(p, deposited, delivered);
      ReadLoopCounts(p.(nread := Inc(p.nread)), i + 1, n, bad, got + [ch], deposited, delivered + [ch]);
    } else if IsEmpty(p) {
      assert |deposited| == |delivered|;
    }
  }

  // ---- the turns ---------------------------------------------------------------------------

  lemma WokenOthers(procs: map<nat, Proc>, pid: nat, chan: Chan)
    ensures OthersWoken(procs, Wakeup(procs - {pid}, chan), pid, chan) && pid !in Wakeup(procs - {pid}, chan)
  {
  }

  /** A reader's turn. On an empty pipe with its write end open the call ends at once if the caller has
      been killed, and otherwise sleeps, and nothing else changes. In every other case the call ends
      with the next bytes: as many as it asked for, as there are, or as copyout takes, whichever is
      fewest; and everybody who sleeps on a full pipe is awake. */
  lemma ReadTurnIs(s: System, pid: nat, killed: bool, bad: nat)
    requires Inv(s) && Enabled(s, ReadTurn(pid, killed, bad))
    ensures var t, c := Do(s, ReadTurn(pid, killed, bad)), s.procs[pid].call;
            if Backlog(s) == 0 && s.p.writeopen then
              t == s.(procs := if killed then s.procs - {pid} else s.procs[pid := Asleep(c, NRead)])
            else
              var k := |t.delivered| - |s.delivered|;
              && pid !in t.procs && OthersWoken(s.procs, t.procs, pid, NWrite)
              && t.deposited == s.deposited && s.delivered <= t.delivered <= t.deposited
              && t.p.readopen == s.p.readopen && t.p.writeopen == s.p.writeopen
              && k == if c.n <= Backlog(s) && c.n <= bad then c.n else if Backlog(s) <= bad then Backlog(s) else bad
  {
    hide Fifo;
    hide ReadLoop;
    hide Wakeup;
    hide IsEmpty;
    var n := s.procs[pid].call.n;
    ReadLoopTakes(s.p, 0, n, bad, [], s.deposited, s.delivered);
    ReadLoopCounts(s.p, 0, n, bad, [], s.deposited, s.delivered);
    Delivered(s.p, s.deposited, s.delivered);
    Delivered(ReadLoop(s.p, 0, n, bad, []).0, s.deposited, s.delivered + ReadLoop(s.p, 0, n, bad, []).1);
    assert ReadLoop(s.p, 0, n, bad, []).1[0..] == ReadLoop(s.p, 0, n, bad, []).1;
    WokenOthers(s.procs, pid, NWrite);
  }

  lemma Delivered(p: Pipe, deposited: seq<nat>, delivered: seq<nat>)
    requires Fifo(p, deposited, delivered)
    ensures delivered <= deposited && (IsEmpty(p) <==> |deposited| == |delivered|)
  {
    CountersTell(p, deposited, delivered);
  }

  /** A writer's turn deposits bytes until it has deposited all of them, the read end is closed, the
      caller is killed, the pipe is full or copyin fails. If the read end is closed or the caller killed
      before the end, the call fails and wakes nobody; in every other case whoever sleeps on an empty
      pipe is awake, and the call has ended, or sleeps because the pipe is full. */
  lemma WriteTurnIs(s: System, pid: nat, killed: nat, bad: nat) returns (u: Turn)
    requires Inv(s) && Enabled(s, WriteTurn(pid, killed, bad))
    ensures var t, c := Do(s, WriteTurn(pid, killed, bad)), s.procs[pid].call;
            && StopsAt(s.p, c.bytes, c.i, 512 - Backlog(s), killed, bad, u) && u.p == t.p
            && t.deposited == s.deposited + c.bytes[c.i..u.i] && t.delivered == s.delivered
            && t.p.readopen == s.p.readopen && t.p.writeopen == s.p.writeopen
            && match u.ending
               case Fails => t.procs == s.procs - {pid}
               case Finishes => pid !in t.procs && OthersWoken(s.procs, t.procs, pid, NRead)
               case Sleeps =>
                 && Backlog(t) == 512 && OthersWoken(s.procs, t.procs, pid, NRead)
                 && pid in t.procs && t.procs[pid] == Asleep(Write(c.bytes, u.i), NWrite)
  {
    hide Fifo;
    hide WriteLoop;
    hide Wakeup;
    var c := s.procs[pid].call;
    WriteLoopPuts(s.p, c.bytes, c.i, killed, bad, s.deposited, s.delivered);
    WriteLoopStops(s.p, c.bytes, c.i, killed, bad, s.deposited, s.delivered);
    WokenOthers(s.procs, pid, NRead);
    u := WriteLoop(s.p, c.bytes, c.i, killed, bad);
  }

  /** Closing an end closes that end only, leaves the bytes alone and wakes whoever sleeps at the other
      one; a killed sleeper is runnable again, and a call begins runnable with all of its work to do. */
  lemma EndsClose(s: System, writable: bool, pid: nat, call: Call)
    requires Shaped(s.p)
    ensures Enabled(s, Close(writable)) ==>
              var t := Do(s, Close(writable));
              && t == s.(p := t.p, procs := t.procs)
              && t.p == s.p.(readopen := writable && s.p.readopen, writeopen := !writable && s.p.writeopen)
              && t.procs.Keys == s.procs.Keys
              && forall q :: q in s.procs ==>
                   t.procs[q] == if AsleepOn(s.procs, q, if writable then NRead else NWrite) then Ready(s.procs[q].call)
                                 else s.procs[q]
    ensures Enabled(s, Rouse(pid)) ==> Do(s, Rouse(pid)) == s.(procs := s.procs[pid := Ready(s.procs[pid].call)])
    ensures Enabled(s, Call(pid, call)) ==>
              Do(s, Call(pid, call)) == s.(procs := s.procs[pid := Ready(call)]) && pid !in s.procs && (call.Write? ==> call.i == 0)
  {
  }
}
