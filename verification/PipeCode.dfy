/** pipewrite, piperead and pipeclose from acquiring the pipe's lock to letting go of it, over the
    pipe's own fields and the process table that wakeup changes. */
module PipeCode {
  import opened PipeRuns

  class PipeSystem {
    const data: array<nat>
    var nread: nat
    var nwrite: nat
    var readopen: bool
    var writeopen: bool
    var procs: map<nat, Proc>
    ghost var deposited: seq<nat>
    ghost var delivered: seq<nat>

    ghost predicate Valid()
      reads this
    {
      data.Length == PIPESIZE && nread < 0x1_0000_0000 && nwrite < 0x1_0000_0000
    }

    ghost function Bytes(): (p: Pipe)
      reads this, data
      ensures Valid() ==> Shaped(p)
    {
      Pipe(data[..], nread, nwrite, readopen, writeopen)
    }

    ghost function Abs(): System
      reads this, data
    {
      System(Bytes(), procs, deposited, delivered)
    }

    // pipealloc, once the memory and the two files are there.
    constructor ()
      ensures Valid() && fresh(data) && Abs() == Opened(data[..])
    {
      data := new nat[PIPESIZE](_ => 0);
      nread, nwrite, readopen, writeopen := 0, 0, true, true;
      procs := map[];
      deposited, delivered := [], [];
    }

    // wakeup(&pi->nread) or wakeup(&pi->nwrite).
    method WakeupAll(chan: Chan)
      modifies this`procs
      ensures procs == Wakeup(old(procs), chan)
    {
      var left := procs.Keys;
      ghost var before := procs;
      while left != {}
        invariant left <= before.Keys == procs.Keys
        invariant forall q :: q in before ==> procs[q] == if q in left then before[q] else Wakeup(before, chan)[q]
        decreases |left|
      {
        var pid :| pid in left;
        if procs[pid].Asleep? && procs[pid].chan == chan {
          procs := procs[pid := Ready(procs[pid].call)];
        }
        left := left - {pid};
      }
      assert procs == Wakeup(before, chan);
    }

    /** A turn of pipewrite: exactly the step of the model, and -1, the count, or nothing yet. */
    method PipeWrite(pid: nat, killed: nat, bad: nat) returns (ending: Ending, i: nat)
      requires Valid() && Enabled(Abs(), PipeRuns.WriteTurn(pid, killed, bad))
      modifies this, data
      ensures Valid() && Abs() == WriteStep(old(Abs()), pid, killed, bad)
      ensures var c := old(procs[pid].call); Turn(Bytes(), i, ending) == WriteLoop(old(Bytes()), c.bytes, c.i, killed, bad)
    {
      hide WriteLoop;
      hide IsFull;
      ghost var was := Abs();
      var bytes := procs[pid].call.bytes;
      ghost var start := procs[pid].call.i;
      i := procs[pid].call.i;
      procs := procs - {pid};
      ghost var goal := WriteLoop(was.p, bytes, i, killed, bad);
      ending := Finishes;
      while true
        invariant Valid() && start <= i <= |bytes| && WriteLoop(Bytes(), bytes, i, killed, bad) == goal
        invariant procs == was.procs - {pid} && readopen == was.p.readopen && writeopen == was.p.writeopen
        invariant deposited == was.deposited && delivered == was.delivered
        decreases |bytes| - i
      {
        UnfoldWrite(Bytes(), bytes, i, killed, bad);
        if i == |bytes| {
          ending := Finishes;
          break;
        }
        if !readopen || i >= killed {
          ending := Fails;
          break;
        }
        if nwrite == (nread + PIPESIZE) % 0x1_0000_0000 {
          FullIs(Bytes());
          ending := Sleeps;
          break;
        }
        FullIs(Bytes());
        if i >= bad {
          ending := Finishes;
          break;
        }
        ghost var p := Bytes();
        data[nwrite % PIPESIZE] := bytes[i];
        nwrite := (nwrite + 1) % 0x1_0000_0000;
        assert data[..] == p.data[p.nwrite % PIPESIZE := bytes[i]];
        i := i + 1;
      }
      assert goal == Turn(Bytes(), i, ending);
      deposited := deposited + bytes[start..i];
      if ending == Fails {
        return;
      }
      WakeupAll(NRead);
      if ending == Sleeps {
        procs := procs[pid := Asleep(Write(bytes, i), NWrite)];
      }
    }

    lemma FullIs(p: Pipe)
      ensures IsFull(p) <==> p.nwrite == (p.nread + PIPESIZE) % 0x1_0000_0000
    {
    }

    lemma UnfoldWrite(p: Pipe, bytes: seq<nat>, i: nat, killed: nat, bad: nat)
      requires Shaped(p) && i <= |bytes|
      ensures var t := WriteLoop(p, bytes, i, killed, bad);
              && (i == |bytes| ==> t == Turn(p, i, Finishes))
              && (i < |bytes| && (!p.readopen || i >= killed) ==> t == Turn(p, i, Fails))
              && (i < |bytes| && p.readopen && i < killed && IsFull(p) ==> t == Turn(p, i, Sleeps))
              && (i < |bytes| && p.readopen && i < killed && !IsFull(p) && i >= bad ==> t == Turn(p, i, Finishes))
              && (i < |bytes| && p.readopen && i < killed && !IsFull(p) && i < bad ==> t == WriteLoop(Put(p, bytes[i]), bytes, i + 1, killed, bad))
    {
    }

    /** A turn of piperead: exactly the step of the model, with the bytes that are copied out. */
    method PipeRead(pid: nat, killed: bool, bad: nat) returns (ending: Ending, got: seq<nat>)
      requires Valid() && Enabled(Abs(), PipeRuns.ReadTurn(pid, killed, bad))
      modifies this
      ensures Valid() && Abs() == ReadStep(old(Abs()), pid, killed, bad)
      ensures ending.Finishes? ==> delivered == old(delivered) + got
      ensures ending.Finishes? <==> old(nread != nwrite || !writeopen)
    {
      hide ReadLoop;
      ghost var was := Abs();
      var call := procs[pid].call;
      got := [];
      if nread == nwrite && writeopen {
        if killed {
          procs := procs - {pid};
          return Fails, got;
        }
        procs := procs[pid := Asleep(call, NRead)];
        return Sleeps, got;
      }
      procs := procs - {pid};
      var i := 0;
      ghost var goal := ReadLoop(was.p, 0, call.n, bad, []);
      while i < call.n
        invariant Valid() && i <= call.n && ReadLoop(Bytes(), i, call.n, bad, got) == goal
        invariant procs == was.procs - {pid} && Bytes() == was.p.(nread := nread)
        invariant deposited == was.deposited && delivered == was.delivered
      {
        UnfoldRead(Bytes(), i, call.n, bad, got);
        if nread == nwrite {
          break;
        }
        if i >= bad {
          break;
        }
        got := got + [data[nread % PIPESIZE]];
        nread := (nread + 1) % 0x1_0000_0000;
        i := i + 1;
      }
      UnfoldRead(Bytes(), i, call.n, bad, got);
      delivered := delivered + got;
      WakeupAll(NWrite);
      ending := Finishes;
    }

    lemma UnfoldRead(p: Pipe, i: nat, n: nat, bad: nat, got: seq<nat>)
      requires Shaped(p) && i <= n
      ensures i == n || p.nread == p.nwrite || i >= bad ==> ReadLoop(p, i, n, bad, got) == (p, got)
      ensures i < n && p.nread != p.nwrite && i < bad ==>
              ReadLoop(p, i, n, bad, got) == ReadLoop(p.(nread := Inc(p.nread)), i + 1, n, bad, got + [p.data[p.nread % PIPESIZE]])
    {
    }

    /** pipeclose; `freed` when both ends are closed. */
    method PipeClose(writable: bool) returns (freed: bool)
      requires Valid() && Enabled(Abs(), PipeRuns.Close(writable))
      modifies this
      ensures Valid() && Abs() == CloseStep(old(Abs()), writable)
      ensures freed <==> !readopen && !writeopen
    {
      if writable {
        writeopen := false;
        WakeupAll(NRead);
      } else {
        readopen := false;
        WakeupAll(NWrite);
      }
      freed := !readopen && !writeopen;
    }
  }
}
