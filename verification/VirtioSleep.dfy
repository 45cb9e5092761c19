/** The callers of virtio_disk_rw, and the two channels they sleep on: the free descriptors and
    their own buffer; each holds the sleep lock of its buffer, so the buffer names the caller. */
module VirtioSleep {
  import opened Virtio
  import V = VirtioRuns

  datatype Call =
    | Trying(n: nat, write: bool, data: Block)      // about to call alloc3_desc
    | NoDescs(n: nat, write: bool, data: Block)     // asleep on &disk.free[0]
    | Checking                                      // about to test b->disk
    | OnBuf                                         // asleep on b

  datatype System = System(v: V.System, calls: map<nat, Call>)

  datatype Step =
    | Enter(b: nat, n: nat, write: bool, data: Block)     // virtio_disk_rw, up to vdisk_lock
    | Turn(b: nat)                                        // from holding vdisk_lock to sleep or return
    | Device(step: V.Step)
    | Interrupt                                           // one turn of virtio_disk_intr's loop
    | Rouse(b: nat)                                       // kill wakes whoever sleeps

  // Where a caller goes on when it is woken.
  ghost function Woken(c: Call): Call {
    match c
    case NoDescs(n, write, data) => Trying(n, write, data)
    case OnBuf => Checking
    case _ => c
  }

  // wakeup(&disk.free[0])
  ghost function WakeFree(calls: map<nat, Call>): map<nat, Call> {
    map b | b in calls :: if calls[b].NoDescs? then Woken(calls[b]) else calls[b]
  }

  // wakeup(b)
  ghost function WakeBuf(calls: map<nat, Call>, b: nat): map<nat, Call> {
    if b in calls && calls[b].OnBuf? then calls[b := Woken(OnBuf)] else calls
  }

  ghost predicate Enabled(s: System, step: Step) {
    match step
    case Enter(b, n, _, _) => b !in s.calls && n in s.v.image
    case Turn(b) =>
      && b in s.calls && (s.calls[b].Trying? || s.calls[b].Checking?)
      && Shaped(s.v.q) && s.v.fetchIdx < 65536
      && (s.calls[b].Trying? ==> b !in s.v.requests && s.calls[b].n in s.v.image)
      && (s.calls[b].Checking? ==> b in s.v.requests && s.v.requests[b].chain.head < 8)
    case Device(step) => (step.Fetch? || step.DeviceDone?) && V.Enabled(s.v, step)
    case Interrupt => V.Enabled(s.v, V.Interrupt)
    case Rouse(b) => b in s.calls && (s.calls[b].NoDescs? || s.calls[b].OnBuf?)
  }

  datatype Outcome = Next(s: System) | Panic

  // The loop around alloc3_desc: a failure gives back what it took, and so wakes the others; a
  // success goes on to the wait for the interrupt without letting go of the lock.
  ghost function TryStep(s: System, b: nat): System
    requires Enabled(s, Turn(b)) && s.calls[b].Trying?
  {
    var c := s.calls[b];
    if Alloc3(s.v.q.free).Some? then System(V.StartStep(s.v, b, c.n, c.write, c.data), s.calls[b := OnBuf])
    else if FirstFree(s.v.q.free, 0) < 8 then s.(calls := WakeFree(s.calls)[b := NoDescs(c.n, c.write, c.data)])
    else s.(calls := s.calls[b := NoDescs(c.n, c.write, c.data)])
  }

  // The loop around the second sleep; every free_desc wakes those who wait for descriptors.
  ghost function CheckStep(s: System, b: nat): Outcome
    requires Enabled(s, Turn(b)) && s.calls[b].Checking?
  {
    if b in s.v.busy then Next(s.(calls := s.calls[b := OnBuf]))
    else
      match V.ReturnStep(s.v, b)
      case Panic => Panic
      case Next(v) => Next(System(v, WakeFree(s.calls - {b})))
  }

  ghost function InterruptStep(s: System): Outcome
    requires Enabled(s, Interrupt)
  {
    match V.InterruptStep(s.v)
    case Panic => Panic
    case Next(v) => Next(System(v, WakeBuf(s.calls, s.v.q.info[s.v.q.used[s.v.q.seen % 8]].b.value)))
  }

  ghost function Do(s: System, step: Step): Outcome
    requires Enabled(s, step)
  {
    match step
    case Enter(b, n, write, data) => Next(s.(calls := s.calls[b := Trying(n, write, data)]))
    case Turn(b) => if s.calls[b].Trying? then Next(TryStep(s, b)) else CheckStep(s, b)
    case Device(step) => Next(s.(v := V.Do(s.v, step).s))
    case Interrupt => InterruptStep(s)
    case Rouse(b) => Next(s.(calls := s.calls[b := Woken(s.calls[b])]))
  }

  // ---- the invariant -----------------------------------------------------------------------

  // A call has a request from its submission on.
  ghost predicate CallOk(v: V.System, b: nat, c: Call) {
    match c
    case Trying(n, _, _) => b !in v.requests && n in v.image
    case NoDescs(n, _, _) => b !in v.requests && n in v.image && Shaped(v.q) && Alloc3(v.q.free).None?
    case Checking => b in v.requests
    case OnBuf => b in v.requests && b in v.busy
  }

  ghost predicate Calls(s: System) {
    && (forall b :: b in s.calls ==> CallOk(s.v, b, s.calls[b]))
    && (forall b :: b in s.v.requests ==> b in s.calls)
  }

  ghost predicate Inv(s: System) { V.Inv(s.v) && Calls(s) }

  lemma HeadIsSmall(v: V.System, b: nat)
    requires V.Inv(v) && b in v.requests
    ensures v.requests[b].chain.head < 8
  {
    V.OwnHead(v, b);
  }

  lemma TryKeepsInv(s: System, b: nat)
    requires Inv(s) && Enabled(s, Turn(b)) && s.calls[b].Trying?
    ensures Inv(TryStep(s, b))
  {
    hide V.Inv;
    hide Alloc3;
    var c := s.calls[b];
    if Alloc3(s.v.q.free).Some? {
      V.StepKeepsInv(s.v, V.Start(b, c.n, c.write, c.data));
      FewerFree(s.v.q.free);
    }
  }

  // Taking descriptors leaves none for those who found too few before.
  lemma FewerFree(free: seq<bool>)
    requires |free| == 8
    ensures Alloc3(free).None? <==> forall i, j, k :: 0 <= i < j < k < 8 ==> !(free[i] && free[j] && free[k])
  {
  }

  lemma CheckKeepsInv(s: System, b: nat)
    requires Inv(s) && Enabled(s, Turn(b)) && s.calls[b].Checking?
    ensures CheckStep(s, b).Next? && Inv(CheckStep(s, b).s)
  {
    hide V.Inv;
    hide Alloc3;
    hide FreeChain;
    if b !in s.v.busy { V.StepKeepsInv(s.v, V.Return(b)); }
  }

  // The stages of requests, and the buffers still busy, are all that the device and the interrupt change.
  lemma DeviceKeepsInv(s: System, step: V.Step)
    requires Inv(s) && Enabled(s, Device(step))
    ensures V.Do(s.v, step).Next? && Inv(s.(v := V.Do(s.v, step).s))
  {
    hide V.Inv;
    hide V.Asked;
    hide Alloc3;
    V.StepKeepsInv(s.v, step);
    SameCalls(s.v, V.Do(s.v, step).s, s.calls);
  }

  lemma SameCalls(v: V.System, w: V.System, calls: map<nat, Call>)
    requires Calls(System(v, calls)) && w.requests.Keys == v.requests.Keys && v.image.Keys <= w.image.Keys
    requires w.q.free == v.q.free && w.busy == v.busy && (Shaped(v.q) ==> Shaped(w.q))
    ensures Calls(System(w, calls))
  {
    hide Alloc3;
    forall b | b in calls ensures CallOk(w, b, calls[b]) { assert CallOk(v, b, calls[b]); }
  }

  lemma InterruptKeepsInv(s: System)
    requires Inv(s) && Enabled(s, Interrupt)
    ensures InterruptStep(s).Next? && Inv(InterruptStep(s).s)
  {
    hide V.Inv;
    hide Alloc3;
    V.StepKeepsInv(s.v, V.Interrupt);
    var t := InterruptStep(s).s;
    forall b | b in t.calls ensures CallOk(t.v, b, t.calls[b]) { assert CallOk(s.v, b, s.calls[b]); }
  }

  /** Every step keeps the invariant, and none panics. */
  lemma StepKeepsInv(s: System, step: Step)
    requires Inv(s) && Enabled(s, step)
    ensures Do(s, step).Next? && Inv(Do(s, step).s)
  {
    hide V.Inv;
    hide Alloc3;
    match step
    case Enter(b, n, write, data) =>
    case Turn(b) => if s.calls[b].Trying? { TryKeepsInv(s, b); } else { CheckKeepsInv(s, b); }
    case Device(step) => DeviceKeepsInv(s, step);
    case Interrupt => InterruptKeepsInv(s);
    case Rouse(b) => assert CallOk(s.v, b, s.calls[b]);
  }

  ghost predicate IsRun(image: map<nat, Block>, run: seq<System>, steps: seq<Step>) {
    && |run| == |steps| + 1 && run[0] == System(V.Boot(image), map[])
    && forall i :: 0 <= i < |steps| ==> Enabled(run[i], steps[i]) && Do(run[i], steps[i]) == Next(run[i + 1])
  }

  lemma {:induction false} RunsKeepInv(image: map<nat, Block>, run: seq<System>, steps: seq<Step>, i: nat)
    requires IsRun(image, run, steps) && i < |run|
    ensures Inv(run[i])
  {
    hide V.Inv;
    hide Do;
    hide Enabled;
    if i == 0 {
      V.BootInv(image);
    } else {
      RunsKeepInv(image, run, steps, i - 1);
      StepKeepsInv(run[i - 1], steps[i - 1]);
    }
  }

  /** In every state of every run a caller sleeps on the free descriptors only while there are fewer
      than three of them, and on its buffer only while the disk still has it. */
  lemma SleepersWait(image: map<nat, Block>, run: seq<System>, steps: seq<Step>, i: nat, b: nat)
    requires IsRun(image, run, steps) && i < |run| && b in run[i].calls
    ensures |run[i].v.q.free| == 8
    ensures run[i].calls[b].NoDescs? ==>
              var free := run[i].v.q.free; forall x, y, z :: 0 <= x < y < z < 8 ==> !(free[x] && free[y] && free[z])
    ensures run[i].calls[b].OnBuf? ==> b in run[i].v.busy && b in run[i].v.requests
  {
    hide IsRun;
    RunsKeepInv(image, run, steps, i);
    assert CallOk(run[i].v, b, run[i].calls[b]);
  }

  // ---- somebody can always move ------------------------------------------------------------

  // A request whose buffer is busy is with the device, or its interrupt is still to come.
  lemma BusyIsPending(v: V.System, b: nat) returns (step: V.Step)
    requires V.Inv(v) && b in v.requests && b in v.busy
    ensures (step.Fetch? || step.DeviceDone? || step.Interrupt?) && V.Enabled(v, step)
  {
    hide V.Partition;
    hide V.Ring;
    hide IsChain;
    hide V.Performed;
    hide V.Asked;
    assert V.ReqOk(v, b);
    var h := v.requests[b].chain.head;
    V.OfferedFew(v);
    V.OwnHead(v, b);
    match v.requests[b].stage
    case Offered =>
      V.RingEmpty(v.q.avail, v.offered, v.nAvail, v.fetchIdx, v.q.availIdx);
      step := V.Fetch;
    case Fetched =>
      V.AskedIsRequest(v, b);
      step := V.DeviceDone(h);
    case Used =>
      V.RingEmpty(v.q.used, v.usedQ, v.nUsed, v.q.seen, v.q.usedIdx);
      V.RingPop(v.q.used, v.usedQ, v.nUsed, v.q.seen, v.q.usedIdx);
      assert V.HeadAt(v, v.usedQ[0], V.Used);
      step := V.Interrupt;
    case Seen =>
      assert false;
  }

  // With fewer than three free descriptors there is a request.
  lemma SomeRequest(v: V.System) returns (b: nat)
    requires V.Partition(v) && Alloc3(v.q.free).None?
    ensures b in v.requests
  {
    assert !v.q.free[0] || !v.q.free[1] || !v.q.free[2];
    var i := if !v.q.free[0] then 0 else if !v.q.free[1] then 1 else 2;
    b :| b in v.requests && V.InChain(i, v.requests[b].chain);
  }

  /** As long as a call has not returned some step other than a new call or a kill is possible: the
      driver and the device cannot come to a stop with everybody asleep. */
  lemma SomebodyMoves(image: map<nat, Block>, run: seq<System>, steps: seq<Step>, i: nat, b: nat)
    requires IsRun(image, run, steps) && i < |run| && b in run[i].calls
    ensures exists step: Step :: !step.Enter? && !step.Rouse? && Enabled(run[i], step)
  {
    hide IsRun;
    hide V.AllReqs;
    hide V.Rings;
    hide V.Stages;
    RunsKeepInv(image, run, steps, i);
    var s := run[i];
    assert CallOk(s.v, b, s.calls[b]);
    var c := b;
    if s.calls[b].NoDescs? { c := SomeRequest(s.v); }
    assert CallOk(s.v, c, s.calls[c]);
    if s.calls[c].OnBuf? {
      var step := BusyIsPending(s.v, c);
      assert Enabled(s, if step.Interrupt? then Interrupt else Device(step));
    } else {
      CanTurn(s, c);
    }
  }

  lemma CanTurn(s: System, b: nat)
    requires Inv(s) && b in s.calls && (s.calls[b].Trying? || s.calls[b].Checking?)
    ensures Enabled(s, Turn(b))
  {
    assert CallOk(s.v, b, s.calls[b]);
    if s.calls[b].Checking? { HeadIsSmall(s.v, b); }
  }

  /** Two callers that wait for descriptors while one or two are free wake each other: each takes what
      there is, gives it back and goes to sleep, and two turns later everything is as it was. */
  lemma TwoSpin(s: System, b: nat, c: nat)
    requires Inv(s) && b in s.calls && c in s.calls && s.calls[b].Trying? && s.calls[c].NoDescs?
    requires forall d :: d in s.calls && s.calls[d].NoDescs? ==> d == c
    requires FirstFree(s.v.q.free, 0) < 8
    ensures Enabled(s, Turn(b)) && Do(s, Turn(b)).Next?
    ensures var t := Do(s, Turn(b)).s; Enabled(t, Turn(c)) && Do(t, Turn(c)) == Next(s)
  {
    hide V.Inv;
    assert CallOk(s.v, b, s.calls[b]) && CallOk(s.v, c, s.calls[c]);
    CanTurn(s, b);
    var t := Do(s, Turn(b)).s;
    StepKeepsInv(s, Turn(b));
    CanTurn(t, c);
    assert WakeFree(t.calls)[c := s.calls[c]] == s.calls;
  }

  // ---- what a call asks for ----------------------------------------------------------------

  // The call has not made its request yet, and wants this.
  ghost predicate Wants(s: System, b: nat, n: nat, write: bool, data: Block) {
    b in s.calls && (s.calls[b] == Trying(n, write, data) || s.calls[b] == NoDescs(n, write, data))
  }

  // The request for this has just been made, and the call waits for it.
  ghost predicate HasAsked(s: System, b: nat, n: nat, write: bool, data: Block) {
    && b in s.v.requests && s.v.requests[b].n == n && s.v.requests[b].write == write
    && b in s.v.bufs && s.v.bufs[b] == data && b in s.calls && s.calls[b] == OnBuf
  }

  ghost predicate ThreeFree(free: seq<bool>) { exists x, y, z :: 0 <= x < y < z < |free| && free[x] && free[y] && free[z] }

  /** A call asks for what it was called with: from its entry on, however often it sleeps and is woken,
      it wants just that, until the step that makes it a request for just that, with these data in the
      buffer. That step is taken as soon as the call has its turn and three descriptors are free. */
  lemma AsksAsCalled(s: System, step: Step, b: nat, n: nat, write: bool, data: Block)
    requires Inv(s) && Enabled(s, step) && (Wants(s, b, n, write, data) || step == Enter(b, n, write, data))
    ensures Do(s, step).Next?
    ensures var t := Do(s, step).s;
            if step == Turn(b) && ThreeFree(s.v.q.free)
            then HasAsked(t, b, n, write, data) else Wants(t, b, n, write, data)
    ensures step == Rouse(b) ==> Do(s, step).s.calls[b] == Trying(n, write, data)
  {
    hide Inv;
    hide Do;
    StepKeepsInv(s, step);
    if step == Turn(b) {
      OwnTurn(s, b, n, write, data);
    } else {
      StillWants(s, step, b, n, write, data);
    }
  }

  lemma OwnTurn(s: System, b: nat, n: nat, write: bool, data: Block)
    requires Enabled(s, Turn(b)) && Wants(s, b, n, write, data)
    ensures Do(s, Turn(b)).Next?
    ensures var t := Do(s, Turn(b)).s;
            if ThreeFree(s.v.q.free) then HasAsked(t, b, n, write, data) else Wants(t, b, n, write, data)
  {
    hide Alloc3;
    FewerFree(s.v.q.free);
  }

  lemma StillWants(s: System, step: Step, b: nat, n: nat, write: bool, data: Block)
    requires Enabled(s, step) && (Wants(s, b, n, write, data) || step == Enter(b, n, write, data))
    requires step != Turn(b) && Do(s, step).Next?
    ensures Wants(Do(s, step).s, b, n, write, data)
    ensures step == Rouse(b) ==> Do(s, step).s.calls[b] == Trying(n, write, data)
  {
    hide Alloc3;
    hide FreeChain;
    hide V.Asked;
  }
}
