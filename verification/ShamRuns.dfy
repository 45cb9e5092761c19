/** Every run of a transfer over a network that loses, duplicates and reorders packets. */
module ShamRuns {
  import opened Sham

  // What has ever been sent either way; any of it may arrive, any number of times, or never.
  datatype System = System(client: Client, server: Server, toServer: set<Packet>, toClient: set<Packet>)

  datatype Step =
    | HandshakeReply(p: Packet)         // the client's only recv in perform_handshake
    | GiveUp                            // its timeout
    | Send                              // the next chunk of the file
    | Receive(p: Packet)                // an answer, while sending
    | TimeOut(i: nat)                   // a window slot's timer
    | Finish                            // send_file returns 0; the FIN
    | LastAck(answer: nat)              // the end of perform_termination
    | ServerGets(p: Packet, drop: bool)

  ghost function Boot(file: Bytes): System {
    System(NewClient(file), NewServer, {SynPacket()}, {})
  }

  ghost predicate Enabled(s: System, step: Step) {
    var c := s.client;
    match step
    case HandshakeReply(p) => c.phase == SynSent && p in s.toClient
    case GiveUp => c.phase == SynSent
    case Send => MaySend(c) && c.pos <= |c.file| && |c.window| == WINDOW
    case Receive(p) => c.phase == Sending && p in s.toClient
    case TimeOut(i) => InWindow(c, i)
    case Finish => AllAcked(c)
    case LastAck(_) => c.phase == Finished
    case ServerGets(p, _) => p in s.toServer && s.server.stage != Closed && s.server.stage != Refused
  }

  ghost function ServerStep(s: System, p: Packet, drop: bool): System {
    var r := if s.server.stage == Receiving then OnData(s.server, p, drop) else OnHandshake(s.server, p);
    s.(server := r.server, toClient := s.toClient + set q | q in r.out)
  }

  ghost function Do(s: System, step: Step): System
    requires Enabled(s, step)
  {
    var c := s.client;
    match step
    case HandshakeReply(p) =>
      if p.syn && p.ack then s.(client := Established(c), toServer := s.toServer + {HandshakeAck(p.seqno)})
      else s.(client := c.(phase := Failed))
    case GiveUp => s.(client := c.(phase := Failed))
    case Send => s.(client := SendNew(c), toServer := if Chunk(c) == [] then s.toServer else s.toServer + {DataPacket(c)})
    case Receive(p) => s.(client := OnAck(c, p))
    case TimeOut(i) =>
      s.(client := Retransmit(c, i),
         toServer := if c.window[i].retries >= RETRIES then s.toServer else s.toServer + {c.window[i].packet})
    case Finish => s.(client := c.(phase := Finished), toServer := s.toServer + {FinPacket(c)})
    case LastAck(answer) => s.(toServer := s.toServer + {FinalAck(answer)})
    case ServerGets(p, drop) => ServerStep(s, p, drop)
  }

  ghost predicate IsRun(file: Bytes, run: seq<System>, steps: seq<Step>) {
    && |run| == |steps| + 1 && run[0] == Boot(file)
    && forall i :: 0 <= i < |steps| ==> Enabled(run[i], steps[i]) && run[i + 1] == Do(run[i], steps[i])
  }

  // ---- the invariant -----------------------------------------------------------------------

  // A place in the byte stream where a packet may begin or end.
  ghost predicate Boundary(file: Bytes, n: nat) { 101 <= n <= 101 + |file| && ((n - 101) % DATA == 0 || n == 101 + |file|) }

  // The packet carries the bytes of the file that its sequence number says.
  ghost predicate Carries(file: Bytes, p: Packet, limit: nat) {
    && !p.syn && !p.ack && !p.fin && p.data != [] && |p.data| <= DATA
    && Boundary(file, p.seqno) && Boundary(file, p.seqno + |p.data|) && p.seqno + |p.data| <= limit
    && p.data == file[p.seqno - 101..p.seqno - 101 + |p.data|]
  }

  ghost predicate Blank(p: Packet) { !p.syn && !p.ack && !p.fin && p.data == [] }

  ghost predicate ToServerOk(c: Client, p: Packet) {
    || p == SynPacket()
    || (p.ack && !p.syn && !p.fin && p.data == [] && p.seqno == 101)
    || Carries(c.file, p, c.next) || Blank(p)
    || (c.phase == Finished && p.fin && p.data == [])
    || (c.phase == Finished && p.ack && !p.syn && !p.fin && p.data == [] && p.seqno == 0)
  }

  ghost predicate ToClientOk(s: System, p: Packet) {
    p.ack ==> s.client.phase == Finished || (Boundary(s.client.file, p.ackno) && p.ackno <= 101 + |s.server.buffer|)
  }

  ghost predicate ClientOk(c: Client) {
    && |c.file| <= MAXFILE && |c.window| == WINDOW && c.pos <= |c.file|
    && (c.phase == SynSent ==> c.pos == 0 && !c.done && c.next == 0)
    && (c.phase == Sending || c.phase == Finished ==>
          && c.next == 101 + c.pos && Boundary(c.file, c.next) && Boundary(c.file, c.base)
          && c.base <= c.next <= c.base + WINDOW * DATA
          && (c.done ==> c.pos == |c.file|))
    && (c.phase == Finished ==> c.done && c.base >= c.next)
  }

  ghost predicate SlotsOk(c: Client) {
    forall i :: 0 <= i < |c.window| ==>
      if c.window[i].filled then Carries(c.file, c.window[i].packet, c.next) else Blank(c.window[i].packet)
  }

  ghost predicate ServerOk(s: System) {
    var c, v := s.client, s.server;
    && (v.stage == WaitSyn || v.stage == WaitAck ==> v.buffer == [])
    && v.buffer <= c.file && Boundary(c.file, 101 + |v.buffer|) && (v.buffer == [] || 101 + |v.buffer| <= c.next)
    && (v.stage == Receiving || v.stage == Closed ==> v.expected == 101 + |v.buffer| || c.file == [])
    && (v.stage == Closed ==> c.phase == Finished)
    // the client never counts as acknowledged what the server has not stored
    && (c.phase == Sending || c.phase == Finished ==> c.base <= 101 + |v.buffer|)
  }

  ghost predicate Inv(s: System) {
    && ClientOk(s.client) && SlotsOk(s.client) && ServerOk(s)
    && (forall p :: p in s.toServer ==> ToServerOk(s.client, p))
    && (forall p :: p in s.toClient ==> ToClientOk(s, p))
  }

  lemma BootInv(file: Bytes)
    requires |file| <= MAXFILE
    ensures Inv(Boot(file))
  {
  }

  // ---- the client's steps ------------------------------------------------------------------

  // Nothing the network holds goes stale when the client moves on.
  lemma NetworkKept(s: System, t: System)
    requires Inv(s) && t.server == s.server && t.client.file == s.client.file && t.client.next >= s.client.next
    requires s.client.phase == Finished ==> t.client.phase == Finished
    ensures forall p :: p in s.toServer ==> ToServerOk(t.client, p)
    ensures forall p :: p in s.toClient ==> ToClientOk(t, p)
  {
    forall p | p in s.toServer ensures ToServerOk(t.client, p) {
      assert ToServerOk(s.client, p);
    }
    forall p | p in s.toClient ensures ToClientOk(t, p) {
      assert ToClientOk(s, p);
    }
  }

  lemma SendKeepsClient(c: Client)
    requires ClientOk(c) && SlotsOk(c) && MaySend(c)
    ensures ClientOk(SendNew(c)) && SlotsOk(SendNew(c))
    ensures Chunk(c) != [] ==> Carries(c.file, DataPacket(c), SendNew(c).next)
  {
    var d := SendNew(c);
    if Chunk(c) != [] {
      assert (c.next - 101) % DATA == 0 && (c.base - 101) % DATA == 0;
      assert |Chunk(c)| == Min(|c.file| - c.pos, DATA);
      forall i | 0 <= i < WINDOW && i != SlotIndex(c) && c.window[i].filled ensures Carries(c.file, d.window[i].packet, d.next) {
        assert Carries(c.file, c.window[i].packet, c.next);
      }
    }
  }

  lemma SendKeepsInv(s: System)
    requires Inv(s) && Enabled(s, Send)
    ensures Inv(Do(s, Send))
  {
    var t := Do(s, Send);
    SendKeepsClient(s.client);
    NetworkKept(s, t);
  }

  lemma ReceiveKeepsInv(s: System, p: Packet)
    requires Inv(s) && Enabled(s, Receive(p))
    ensures Inv(Do(s, Receive(p)))
  {
    var t := Do(s, Receive(p));
    assert ToClientOk(s, p);
    NetworkKept(s, t);
  }

  lemma TimeOutKeepsInv(s: System, i: nat)
    requires Inv(s) && Enabled(s, TimeOut(i))
    ensures Inv(Do(s, TimeOut(i)))
  {
    var t := Do(s, TimeOut(i));
    NetworkKept(s, t);
    assert s.client.window[i].filled ==> Carries(s.client.file, s.client.window[i].packet, s.client.next);
  }

  lemma FinishKeepsInv(s: System)
    requires Inv(s) && Enabled(s, Finish)
    ensures Inv(Do(s, Finish))
  {
    NetworkKept(s, Do(s, Finish));
  }

  lemma HandshakeKeepsInv(s: System, p: Packet)
    requires Inv(s) && Enabled(s, HandshakeReply(p))
    ensures Inv(Do(s, HandshakeReply(p)))
  {
    var t := Do(s, HandshakeReply(p));
    forall i | 0 <= i < |s.client.window| ensures !s.client.window[i].filled {
      assert s.client.window[i].filled ==> Carries(s.client.file, s.client.window[i].packet, s.client.next);
    }
    NetworkKept(s, t);
  }

  // ---- the server's steps ------------------------------------------------------------------

  lemma StoreKeepsPrefix(file: Bytes, buffer: Bytes, p: Packet, limit: nat)
    requires buffer <= file && Carries(file, p, limit) && p.seqno == 101 + |buffer|
    ensures buffer + p.data <= file
  {
    assert file[..|buffer|] + file[|buffer|..|buffer| + |p.data|] == file[..|buffer| + |p.data|];
  }

  // A first packet taken for the handshake's ACK, although it is the last of the termination, is
  // harmless: the file was empty.
  lemma HandshakeServerOk(s: System, p: Packet)
    requires Inv(s) && p in s.toServer && (s.server.stage == WaitSyn || s.server.stage == WaitAck)
    ensures ServerOk(s.(server := OnHandshake(s.server, p).server))
  {
    assert ToServerOk(s.client, p);
  }

  lemma ServerKeepsInv(s: System, p: Packet, drop: bool)
    requires Inv(s) && Enabled(s, ServerGets(p, drop))
    ensures Inv(Do(s, ServerGets(p, drop)))
  {
    var t := Do(s, ServerGets(p, drop));
    assert ToServerOk(s.client, p);
    if s.server.stage != Receiving {
      HandshakeServerOk(s, p);
    } else if !p.fin && p.data != [] && !drop && p.seqno == s.server.expected {
      StoreKeepsPrefix(s.client.file, s.server.buffer, p, s.client.next);
    }
    forall q | q in t.toClient ensures ToClientOk(t, q) {
      if q in s.toClient { assert ToClientOk(s, q); }
    }
  }

  lemma StepKeepsInv(s: System, step: Step)
    requires Inv(s) && Enabled(s, step)
    ensures Inv(Do(s, step))
  {
    hide Inv;
    match step
    case HandshakeReply(p) => HandshakeKeepsInv(s, p);
    case GiveUp => GiveUpKeepsInv(s);
    case Send => SendKeepsInv(s);
    case Receive(p) => ReceiveKeepsInv(s, p);
    case TimeOut(i) => TimeOutKeepsInv(s, i);
    case Finish => FinishKeepsInv(s);
    case LastAck(answer) => LastAckKeepsInv(s, answer);
    case ServerGets(p, drop) => ServerKeepsInv(s, p, drop);
  }

  lemma GiveUpKeepsInv(s: System)
    requires Inv(s) && Enabled(s, GiveUp)
    ensures Inv(Do(s, GiveUp))
  {
    NetworkKept(s, Do(s, GiveUp));
  }

  lemma LastAckKeepsInv(s: System, answer: nat)
    requires Inv(s) && Enabled(s, LastAck(answer))
    ensures Inv(Do(s, LastAck(answer)))
  {
    NetworkKept(s, Do(s, LastAck(answer)));
  }

  lemma {:induction false} RunsKeepInv(file: Bytes, run: seq<System>, steps: seq<Step>, i: nat)
    requires IsRun(file, run, steps) && |file| <= MAXFILE && i < |run|
    ensures Inv(run[i]) && run[i].client.file == file
  {
    hide Inv;
    if i == 0 {
      BootInv(file);
    } else {
      RunsKeepInv(file, run, steps, i - 1);
      StepKeepsInv(run[i - 1], steps[i - 1]);
    }
  }

  /** Safety, in every state of every run, for files up to 10 MB: the server's buffer is a prefix of
      the file; the client counts as acknowledged only what the server has stored; at most ten
      packets' worth of bytes is unacknowledged, and no sequence number wraps; a filled window slot
      carries the file bytes at its sequence number. */
  lemma TransferIsSafe(file: Bytes, run: seq<System>, steps: seq<Step>, i: nat)
    requires IsRun(file, run, steps) && |file| <= MAXFILE && i < |run|
    ensures var c, v := run[i].client, run[i].server;
            && v.buffer <= file && |v.buffer| <= MAXFILE
            && (c.phase == Sending || c.phase == Finished ==>
                  101 <= c.base <= 101 + |v.buffer| && c.base <= c.next <= c.base + WINDOW * DATA && c.next + DATA < 0x1_0000_0000)
            && (forall k :: 0 <= k < |c.window| && c.window[k].filled ==> Carries(file, c.window[k].packet, c.next))
  {
    hide IsRun;
    RunsKeepInv(file, run, steps, i);
  }

  /** When send_file has returned 0, and when a FIN has reached the data loop, the server holds the
      whole file. */
  lemma FinishedMeansComplete(file: Bytes, run: seq<System>, steps: seq<Step>, i: nat)
    requires IsRun(file, run, steps) && |file| <= MAXFILE && i < |run|
    ensures run[i].client.phase == Finished ==> run[i].server.buffer == file
    ensures run[i].server.stage == Closed ==> run[i].server.buffer == file
    ensures i < |steps| && steps[i].ServerGets? && steps[i].p.fin && run[i].server.stage == Receiving ==> run[i].server.buffer == file
  {
    hide Do;
    RunsKeepInv(file, run, steps, i);
    if i < |steps| && steps[i].ServerGets? { assert ToServerOk(run[i].client, steps[i].p); }
  }

  /** At most ten packets are in flight: whatever the network holds from the window base on starts at
      one of ten places. */
  lemma TenInFlight(file: Bytes, run: seq<System>, steps: seq<Step>, i: nat, p: Packet)
    requires IsRun(file, run, steps) && |file| <= MAXFILE && i < |run| && run[i].client.phase == Sending
    requires p in run[i].toServer && p.data != [] && p.seqno >= run[i].client.base
    ensures var d := p.seqno - run[i].client.base; d % DATA == 0 && d / DATA < WINDOW
  {
    hide IsRun;
    RunsKeepInv(file, run, steps, i);
    assert ToServerOk(run[i].client, p);
    Aligned(run[i].client, p);
  }

  lemma Aligned(c: Client, p: Packet)
    requires ClientOk(c) && c.phase == Sending && Carries(c.file, p, c.next) && p.seqno >= c.base
    ensures (p.seqno - c.base) % DATA == 0 && (p.seqno - c.base) / DATA < WINDOW
  {
    assert (p.seqno - 101) % DATA == 0 && (c.base - 101) % DATA == 0;
  }

  // ---- the window slots --------------------------------------------------------------------

  // What the retransmission loop takes for granted: slot i holds the packet at base + i * DATA.
  ghost predicate SlotsInStep(c: Client) {
    forall i: nat :: InWindow(c, i) ==> c.window[i].filled && c.window[i].packet.seqno == c.base + i * DATA
  }

  // Slot 0 holds nothing newer than the base, and tells whether the slots are in step.
  ghost predicate SlotZeroTells(c: Client) {
    c.phase == Sending && c.next > 101 ==>
      && |c.window| == WINDOW && c.window[0].filled && c.window[0].packet.seqno <= c.base
      && (c.window[0].packet.seqno == c.base ==> SlotsInStep(c))
  }

  // The packets in flight before a new one occupy the other slots of the window.
  lemma NewSlot(c: Client, i: nat)
    requires ClientOk(c) && MaySend(c) && Chunk(c) != [] && InWindow(SendNew(c), i)
    ensures InWindow(c, i) <==> i != SlotIndex(c)
    ensures i == SlotIndex(c) ==> c.base + i * DATA == c.next
  {
    assert (c.next - 101) % DATA == 0 && (c.base - 101) % DATA == 0;
  }

  lemma SendKeepsZero(c: Client)
    requires ClientOk(c) && SlotZeroTells(c) && MaySend(c)
    ensures SlotZeroTells(SendNew(c))
  {
    hide Boundary;
    var d := SendNew(c);
    if Chunk(c) == [] {
      assert forall i: nat :: InWindow(d, i) ==> InWindow(c, i);
    } else {
      FirstSlotOf(c);
      forall i: nat | InWindow(d, i) && d.window[0].packet.seqno == d.base
        ensures d.window[i].filled && d.window[i].packet.seqno == d.base + i * DATA
      {
        NewSlot(c, i);
      }
    }
  }

  lemma AckKeepsZero(c: Client, p: Packet)
    requires ClientOk(c) && SlotZeroTells(c) && c.phase == Sending
    ensures SlotZeroTells(OnAck(c, p))
  {
    if OnAck(c, p).base == c.base { assert OnAck(c, p) == c; }
  }

  lemma TimeOutKeepsZero(c: Client, i: nat)
    requires SlotZeroTells(c) && InWindow(c, i)
    ensures SlotZeroTells(Retransmit(c, i))
  {
    var d := Retransmit(c, i);
    forall k: nat | InWindow(d, k) ensures InWindow(c, k) && d.window[k].filled == c.window[k].filled && d.window[k].packet == c.window[k].packet {
    }
  }

  lemma {:induction false} RunsKeepZero(file: Bytes, run: seq<System>, steps: seq<Step>, i: nat)
    requires IsRun(file, run, steps) && |file| <= MAXFILE && i < |run|
    ensures SlotZeroTells(run[i].client)
  {
    hide Inv;
    if i > 0 {
      RunsKeepZero(file, run, steps, i - 1);
      RunsKeepInv(file, run, steps, i - 1);
      StepKeepsZero(run[i - 1], steps[i - 1]);
    }
  }

  lemma StepKeepsZero(s: System, step: Step)
    requires Inv(s) && Enabled(s, step) && SlotZeroTells(s.client)
    ensures SlotZeroTells(Do(s, step).client)
  {
    hide SlotZeroTells;
    match step
    case HandshakeReply(p) => NotSending(s.client, Do(s, step).client);
    case GiveUp => NotSending(s.client, Do(s, step).client);
    case Send => SendKeepsZero(s.client);
    case Receive(p) => AckKeepsZero(s.client, p);
    case TimeOut(i) => TimeOutKeepsZero(s.client, i);
    case Finish => NotSending(s.client, Do(s, step).client);
    case LastAck(answer) =>
    case ServerGets(p, drop) =>
  }

  lemma NotSending(c: Client, d: Client)
    requires d.phase == Sending ==> d.next == 101
    ensures SlotZeroTells(d)
  {
  }

  /** While packets are in flight the slots are in step, in every state of every run, exactly when
      slot 0 holds the packet at the window base. */
  lemma SlotsInStepIff(file: Bytes, run: seq<System>, steps: seq<Step>, i: nat)
    requires IsRun(file, run, steps) && |file| <= MAXFILE && i < |run|
    requires run[i].client.phase == Sending && run[i].client.base < run[i].client.next
    ensures |run[i].client.window| == WINDOW
    ensures SlotsInStep(run[i].client) <==> run[i].client.window[0].packet.seqno == run[i].client.base
  {
    hide IsRun;
    RunsKeepInv(file, run, steps, i);
    RunsKeepZero(file, run, steps, i);
    assert InWindow(run[i].client, 0);
  }

  /** The slots fall out of step exactly when an acknowledgment moves the base while packets behind it
      are still in flight; SlotsDrift is such a run. */
  lemma SlotsFallOutIff(file: Bytes, run: seq<System>, steps: seq<Step>, i: nat)
    requires IsRun(file, run, steps) && |file| <= MAXFILE && i < |steps| && SlotsInStep(run[i].client)
    ensures !SlotsInStep(run[i + 1].client) <==>
              && steps[i].Receive? && steps[i].p.ack
              && run[i].client.base < steps[i].p.ackno < run[i].client.next
  {
    RunsKeepInv(file, run, steps, i);
    RunsKeepZero(file, run, steps, i);
    RunsKeepZero(file, run, steps, i + 1);
    StaysInStep(run[i], steps[i]);
  }

  // Slot 0 tells, where there is something to tell.
  lemma ZeroDecides(c: Client)
    requires SlotZeroTells(c) && (c.phase == Sending ==> 101 <= c.base && |c.window| == WINDOW)
    ensures c.phase != Sending || c.base >= c.next ==> SlotsInStep(c)
    ensures c.phase == Sending && c.base < c.next ==>
              && (SlotsInStep(c) <==> c.window[0].packet.seqno == c.base) && c.window[0].packet.seqno <= c.base
  {
    if c.phase == Sending && c.base < c.next { assert InWindow(c, 0); }
  }

  lemma ClientBounds(c: Client)
    requires ClientOk(c)
    ensures |c.window| == WINDOW && c.pos <= |c.file| && (c.phase == Sending ==> 101 <= c.base <= c.next)
  {
  }

  lemma StaysInStep(s: System, step: Step)
    requires Inv(s) && Enabled(s, step) && SlotsInStep(s.client) && SlotZeroTells(s.client) && SlotZeroTells(Do(s, step).client)
    ensures !SlotsInStep(Do(s, step).client) <==> step.Receive? && step.p.ack && s.client.base < step.p.ackno < s.client.next
  {
    hide SlotsInStep;
    hide SlotZeroTells;
    hide ClientOk;
    hide SlotsOk;
    hide ServerOk;
    hide ToServerOk;
    hide ToClientOk;
    var c, d := s.client, Do(s, step).client;
    ClientBounds(c);
    if step.Send? && Chunk(c) != [] { FirstSlotOf(c); }
    ZeroDecides(c);
    ZeroDecides(d);
  }

  lemma FirstSlotOf(c: Client)
    requires ClientOk(c) && MaySend(c) && Chunk(c) != []
    ensures c.base == c.next ==> SlotIndex(c) == 0
    ensures c.base < c.next ==> SlotIndex(c) != 0
  {
    assert (c.next - 101) % DATA == 0 && (c.base - 101) % DATA == 0;
  }

  /** Before the first acknowledgment that counts the slots are in step. */
  lemma SlotsInStepAtFirst(file: Bytes, run: seq<System>, steps: seq<Step>, i: nat)
    requires IsRun(file, run, steps) && |file| <= MAXFILE && i < |run|
    ensures run[i].client.phase == Sending && run[i].client.base == 101 ==> SlotsInStep(run[i].client)
  {
    RunsKeepInv(file, run, steps, i);
    RunsKeepZero(file, run, steps, i);
    var c := run[i].client;
    if c.phase == Sending && c.base == 101 && c.next > 101 { assert Carries(file, c.window[0].packet, c.next); }
  }
}
