/** What each end makes of the packets that arrive in any run, and what a run can still come to: success,
    as long as neither end has given up. */
module ShamProgress {
  import opened Sham
  import opened ShamRuns
  import opened ShamCode

  // ---- what the network holds --------------------------------------------------------------

  ghost predicate HasPacket(s: System, n: nat) {
    exists p :: p in s.toServer && p.seqno == n && Carries(s.client.file, p, s.client.next)
  }

  ghost predicate HasAck(s: System) { exists n :: HandshakeAck(n) in s.toServer }

  // The file's packets so far, every one of them.
  ghost predicate AllSent(s: System) {
    forall n :: 101 <= n < s.client.next && (n - 101) % DATA == 0 ==> HasPacket(s, n)
  }

  ghost predicate Sent(s: System) {
    && SynPacket() in s.toServer
    && (forall p :: p in s.toServer && p.fin ==> p == Packet(101 + |s.client.file|, 0, false, false, true, []))
    && (s.client.phase == Sending ==> HasAck(s) && AllSent(s))
  }

  ghost predicate Answered(s: System) {
    && (s.server.stage == WaitSyn ==>
          s.toServer == {SynPacket()} && s.toClient == {} && (s.client.phase == SynSent || s.client.phase == Failed))
    && (s.client.phase == SynSent ==>
          s.toServer == {SynPacket()} && s.toClient <= {SynAckPacket(100)} && s.server.stage != Receiving)
    && (s.server.stage != WaitSyn ==> SynAckPacket(100) in s.toClient)
    && (s.server.stage == Refused ==> s.server.buffer == [])
    && (s.server.buffer != [] ==> AckPacket(101 + |s.server.buffer|) in s.toClient)
  }

  // The network only ever gains packets, and the client goes on.
  lemma PacketsStay(s: System, t: System)
    requires AllSent(s) && s.toServer <= t.toServer && t.client.file == s.client.file && t.client.next == s.client.next
    ensures AllSent(t)
  {
    forall n | 101 <= n < t.client.next && (n - 101) % DATA == 0 ensures HasPacket(t, n) {
      assert HasPacket(s, n);
      var p :| p in s.toServer && p.seqno == n && Carries(s.client.file, p, s.client.next);
      assert p in t.toServer;
    }
  }

  lemma StaysAcked(s: System, t: System)
    requires HasAck(s) && s.toServer <= t.toServer
    ensures HasAck(t)
  {
    var n :| HandshakeAck(n) in s.toServer;
    assert HandshakeAck(n) in t.toServer;
  }

  lemma NewPacketThere(s: System, t: System)
    requires Inv(s) && MaySend(s.client) && Chunk(s.client) != [] && t == Do(s, Send)
    ensures HasPacket(t, s.client.next) && t.client.next <= s.client.next + DATA && (s.client.next - 101) % DATA == 0
  {
    SendKeepsClient(s.client);
    assert DataPacket(s.client) in t.toServer;
  }

  lemma SendKeepsAll(s: System)
    requires Inv(s) && Enabled(s, Send) && AllSent(s)
    ensures AllSent(Do(s, Send))
  {
    hide SlotsOk;
    hide ServerOk;
    var t := Do(s, Send);
    if Chunk(s.client) != [] {
      NewPacketThere(s, t);
      forall n | 101 <= n < t.client.next && (n - 101) % DATA == 0 ensures HasPacket(t, n) {
        if n < s.client.next {
          assert HasPacket(s, n);
          var p :| p in s.toServer && p.seqno == n && Carries(s.client.file, p, s.client.next);
          assert p in t.toServer && Carries(t.client.file, p, t.client.next);
        } else {
          assert n == s.client.next;
        }
      }
    } else {
      PacketsStay(s, t);
    }
  }

  lemma FileStays(s: System, step: Step)
    requires Enabled(s, step)
    ensures Do(s, step).client.file == s.client.file && s.toServer <= Do(s, step).toServer && s.toClient <= Do(s, step).toClient
    ensures !step.Send? && s.client.phase == Sending ==> Do(s, step).client.next == s.client.next
    ensures step.Send? ==> Do(s, step).client.phase == Sending
    ensures !step.HandshakeReply? && Do(s, step).client.phase == Sending ==> s.client.phase == Sending
  {
  }

  lemma NewFins(s: System, step: Step, p: Packet)
    requires Inv(s) && Enabled(s, step) && p in Do(s, step).toServer && p !in s.toServer && p.fin
    ensures p == Packet(101 + |s.client.file|, 0, false, false, true, [])
  {
    hide ServerOk;
    NoFinInWindow(s.client);
  }

  lemma NoFinInWindow(c: Client)
    requires SlotsOk(c)
    ensures forall i :: 0 <= i < |c.window| ==> !c.window[i].packet.fin
  {
    forall i | 0 <= i < |c.window| ensures !c.window[i].packet.fin {
      assert if c.window[i].filled then Carries(c.file, c.window[i].packet, c.next) else Blank(c.window[i].packet);
    }
  }

  lemma HandshakeSends(s: System, p: Packet)
    requires Enabled(s, HandshakeReply(p)) && Do(s, HandshakeReply(p)).client.phase == Sending
    ensures HasAck(Do(s, HandshakeReply(p))) && AllSent(Do(s, HandshakeReply(p)))
  {
    assert HandshakeAck(p.seqno) in Do(s, HandshakeReply(p)).toServer;
  }

  lemma StepKeepsSent(s: System, step: Step)
    requires Inv(s) && Sent(s) && Enabled(s, step)
    ensures Sent(Do(s, step))
  {
    hide Inv;
    hide Do;
    hide AllSent;
    hide HasAck;
    var t := Do(s, step);
    FileStays(s, step);
    forall p | p in t.toServer && p.fin ensures p == Packet(101 + |s.client.file|, 0, false, false, true, []) {
      if p !in s.toServer { NewFins(s, step, p); }
    }
    if t.client.phase == Sending {
      if step.HandshakeReply? {
        HandshakeSends(s, step.p);
      } else {
        StaysAcked(s, t);
        if step.Send? { SendKeepsAll(s); } else { PacketsStay(s, t); }
      }
    }
  }

  lemma StepKeepsAnswered(s: System, step: Step)
    requires Inv(s) && Answered(s) && Enabled(s, step)
    ensures Answered(Do(s, step))
  {
    hide ClientOk;
    hide SlotsOk;
    hide ToClientOk;
    hide ToServerOk;
    if step.ServerGets? { ServerKeepsAnswered(s, step.p, step.drop); }
  }

  lemma ServerKeepsAnswered(s: System, p: Packet, drop: bool)
    requires Inv(s) && Answered(s) && Enabled(s, ServerGets(p, drop))
    ensures Answered(ServerStep(s, p, drop))
  {
    hide ClientOk;
    hide SlotsOk;
    hide ToClientOk;
    assert ToServerOk(s.client, p);
  }

  lemma {:induction false} RunsKeepWired(file: Bytes, run: seq<System>, steps: seq<Step>, i: nat)
    requires IsRun(file, run, steps) && |file| <= MAXFILE && i < |run|
    ensures Inv(run[i]) && run[i].client.file == file && Sent(run[i]) && Answered(run[i])
  {
    hide Inv;
    hide Do;
    hide Enabled;
    RunsKeepInv(file, run, steps, i);
    if i > 0 {
      hide Sent;
      hide Answered;
      RunsKeepWired(file, run, steps, i - 1);
      StepKeepsSent(run[i - 1], steps[i - 1]);
      StepKeepsAnswered(run[i - 1], steps[i - 1]);
    }
  }

  // ---- what the server makes of a packet ---------------------------------------------------

  // A packet of the file at the place that the server waits for.
  ghost predicate IsNext(s: System, p: Packet) { !p.fin && p.data != [] && p.seqno == 101 + |s.server.buffer| }

  /** While the server receives, in every state of every run: a data packet at the place it waits for,
      if not dropped, is appended to the buffer whole, however short, and acknowledged up to the new
      end; a FIN finds the whole file there, is answered by an ACK and a FIN, and ends the transfer;
      every other packet changes nothing and is not answered. */
  lemma ServerStores(file: Bytes, run: seq<System>, steps: seq<Step>, i: nat, p: Packet, drop: bool)
    requires IsRun(file, run, steps) && |file| <= MAXFILE && i < |run|
    requires run[i].server.stage == Receiving && p in run[i].toServer
    ensures var s, t := run[i], Do(run[i], ServerGets(p, drop));
            && t.client == s.client && t.toServer == s.toServer
            && (IsNext(s, p) && !drop ==>
                  && t.server.stage == Receiving && t.server.buffer == s.server.buffer + p.data
                  && t.toClient == s.toClient + {Packet(0, 101 + |t.server.buffer|, false, true, false, [])})
            && (p.fin ==>
                  && s.server.buffer == file && t.server.stage == Closed && t.server.buffer == file
                  && (file != [] ==> s.server.expected == 101 + |file|)
                  && t.toClient == s.toClient + {Packet(0, 102 + |file|, false, true, false, []),
                                                 Packet(s.server.expected, 0, false, false, true, [])})
            && (!p.fin && (drop || !IsNext(s, p)) ==> t == s)
  {
    hide Inv;
    hide IsRun;
    RunsKeepWired(file, run, steps, i);
    if p.fin {
      FinCloses(run[i], p, drop);
    } else {
      DataStored(run[i], p, drop);
    }
  }

  lemma FinCloses(s: System, p: Packet, drop: bool)
    requires Inv(s) && Sent(s) && s.server.stage == Receiving && p in s.toServer && p.fin
    ensures var t := ServerStep(s, p, drop);
            && s.server.buffer == s.client.file && t.server == s.server.(stage := Closed)
            && t.toClient == s.toClient + {Packet(0, 102 + |s.client.file|, false, true, false, []),
                                           Packet(s.server.expected, 0, false, false, true, [])}
    ensures s.client.file != [] ==> s.server.expected == 101 + |s.client.file|
  {
    hide SlotsOk;
    hide ToClientOk;
    assert ToServerOk(s.client, p);
    var out := OnData(s.server, p, drop).out;
    assert (set q | q in out) == {out[0], out[1]};
  }

  lemma DataStored(s: System, p: Packet, drop: bool)
    requires Inv(s) && s.server.stage == Receiving && p in s.toServer && !p.fin
    ensures var t := ServerStep(s, p, drop);
            && (IsNext(s, p) && !drop ==>
                  && t.server.stage == Receiving && t.server.buffer == s.server.buffer + p.data
                  && t.toClient == s.toClient + {AckPacket(101 + |t.server.buffer|)})
            && (drop || !IsNext(s, p) ==> t == s)
  {
    hide SlotsOk;
    hide ToClientOk;
    assert ToServerOk(s.client, p);
    var t := ServerStep(s, p, drop);
    if IsNext(s, p) && !drop {
      assert OnData(s.server, p, drop).out == [AckPacket(101 + |t.server.buffer|)];
    } else {
      assert OnData(s.server, p, drop) == Reply(s.server, []);
      assert t.toClient == s.toClient;
    }
  }

  /** The handshake, in every state of every run: the first packet is the SYN, which is answered by a
      SYN-ACK; after it the first packet with the ACK flag starts the transfer, and any other one makes
      the server refuse. */
  lemma ServerShakes(file: Bytes, run: seq<System>, steps: seq<Step>, i: nat, p: Packet, drop: bool)
    requires IsRun(file, run, steps) && |file| <= MAXFILE && i < |run| && p in run[i].toServer
    ensures run[i].server.stage == WaitSyn ==>
              var s, t := run[i], Do(run[i], ServerGets(p, drop));
              && p == Packet(100, 0, true, false, false, []) && t.server == s.server.(stage := WaitAck)
              && t.toClient == {Packet(5000, 101, true, true, false, [])}
    ensures run[i].server.stage == WaitAck ==>
              var s, t := run[i], Do(run[i], ServerGets(p, drop));
              && t.toClient == s.toClient && t.server.buffer == []
              && t.server.stage == (if p.ack then Receiving else Refused)
              && (p.ack && file != [] ==> t.server.expected == 101)
  {
    hide IsRun;
    hide SlotsOk;
    hide ToClientOk;
    RunsKeepWired(file, run, steps, i);
    assert ToServerOk(run[i].client, p);
    if run[i].server.stage == WaitSyn {
      var out := OnHandshake(run[i].server, p).out;
      assert (set q | q in out) == {out[0]};
    }
  }

  /** The client's side of the connection, in every state of every run: the only answer to its SYN that
      can arrive is the SYN-ACK, upon which it acknowledges and starts at sequence number 101; the FIN
      carries the number behind the file's last byte, and its answer is acknowledged. */
  lemma ClientConnects(file: Bytes, run: seq<System>, steps: seq<Step>, i: nat, p: Packet, answer: nat)
    requires IsRun(file, run, steps) && |file| <= MAXFILE && i < |run|
    ensures Enabled(run[i], HandshakeReply(p)) ==>
              var s, t := run[i], Do(run[i], HandshakeReply(p));
              && p == Packet(5000, 101, true, true, false, []) && t.server == s.server && t.toClient == s.toClient
              && t.client == s.client.(phase := Sending, base := 101, next := 101) && s.client.pos == 0 && !s.client.done
              && t.toServer == s.toServer + {Packet(101, 5001, false, true, false, [])}
    ensures Enabled(run[i], Finish) ==>
              var s, t := run[i], Do(run[i], Finish);
              && t.client == s.client.(phase := Finished) && t.server == s.server && t.toClient == s.toClient
              && t.toServer == s.toServer + {Packet(101 + |file|, 0, false, false, true, [])}
    ensures Enabled(run[i], LastAck(answer)) ==>
              Do(run[i], LastAck(answer)) == run[i].(toServer := run[i].toServer + {Packet(0, answer + 1, false, true, false, [])})
  {
    hide IsRun;
    hide SlotsOk;
    hide ServerOk;
    hide ToClientOk;
    hide ToServerOk;
    hide Sent;
    RunsKeepWired(file, run, steps, i);
  }

  // ---- success is always within reach ------------------------------------------------------

  ghost predicate Succeeded(s: System) { s.client.phase == Finished && s.server.buffer == s.client.file }

  ghost predicate CanSucceed(s: System) { exists steps, t :: Leads(s, steps, t) && Succeeded(t) }

  lemma SucceedsNow(s: System)
    requires Succeeded(s)
    ensures CanSucceed(s)
  {
    assert Leads(s, [], s);
  }

  lemma SucceedsAfter(s: System, step: Step)
    requires Enabled(s, step) && CanSucceed(Do(s, step))
    ensures CanSucceed(s)
  {
    hide Succeeded;
    hide Leads;
    hide Do;
    hide Enabled;
    var steps, t :| Leads(Do(s, step), steps, t) && Succeeded(t);
    LeadsFirst(s, step, steps, t);
  }

  ghost predicate Good(s: System) { Inv(s) && Sent(s) && Answered(s) }

  lemma StaysGood(s: System, step: Step)
    requires Good(s) && Enabled(s, step)
    ensures Good(Do(s, step)) && Do(s, step).client.file == s.client.file
  {
    hide Inv;
    hide Sent;
    hide Answered;
    hide Do;
    hide Enabled;
    FileStays(s, step);
    StepKeepsInv(s, step);
    StepKeepsSent(s, step);
    StepKeepsAnswered(s, step);
  }

  // What is left to do, while the client sends.
  ghost predicate Going(s: System) { Good(s) && s.client.phase == Sending && (s.server.stage == Receiving || s.client.file == []) }

  // Everything in flight is acknowledged: the next chunk, or the end.
  lemma SendsOn(s: System)
    requires Going(s) && s.client.base == s.client.next
    ensures s.client.done ==> Enabled(s, Finish) && Succeeded(Do(s, Finish))
    ensures !s.client.done ==>
              && Enabled(s, Send) && Going(Do(s, Send)) && Do(s, Send).server == s.server && Do(s, Send).client.base == s.client.base
              && (Do(s, Send).client.pos > s.client.pos || (Do(s, Send).client.pos == s.client.pos && Do(s, Send).client.done))
  {
    hide Sent;
    hide Answered;
    hide SlotsOk;
    hide ToClientOk;
    hide ToServerOk;
    if !s.client.done { StaysGood(s, Send); }
  }

  // The server has more than the client knows: the last ACK tells.
  lemma HearsOn(s: System)
    requires Going(s) && s.client.base < s.client.next && s.client.base < 101 + |s.server.buffer|
    ensures var step := Receive(AckPacket(101 + |s.server.buffer|));
            && Enabled(s, step) && Going(Do(s, step)) && Do(s, step).server == s.server
            && Do(s, step).client == s.client.(base := 101 + |s.server.buffer|)
  {
    hide Inv;
    hide Sent;
    var step := Receive(AckPacket(101 + |s.server.buffer|));
    KnowsLess(s);
    StaysGood(s, step);
  }

  lemma KnowsLess(s: System)
    requires Going(s)
    ensures 101 <= s.client.base <= 101 + |s.server.buffer| && s.client.base <= s.client.next == 101 + s.client.pos
    ensures s.client.pos <= |s.client.file| && |s.server.buffer| <= |s.client.file|
  {
    hide Sent;
    hide Answered;
    hide SlotsOk;
    hide ToClientOk;
    hide ToServerOk;
  }

  // The packet at the base, which the server waits for, arrives.
  lemma StoresOn(s: System) returns (p: Packet)
    requires Going(s) && s.client.base < s.client.next && s.client.base == 101 + |s.server.buffer|
    ensures var step := ServerGets(p, false);
            && Enabled(s, step) && Going(Do(s, step)) && Do(s, step).client == s.client
            && |Do(s, step).server.buffer| > |s.server.buffer|
  {
    hide Answered;
    hide SlotsOk;
    hide ToClientOk;
    hide ToServerOk;
    hide AllSent;
    p := PacketAtBase(s);
    DataStored(s, p, false);
    StaysGood(s, ServerGets(p, false));
  }

  lemma PacketAtBase(s: System) returns (p: Packet)
    requires Going(s) && s.client.base < s.client.next && s.client.base == 101 + |s.server.buffer|
    ensures p in s.toServer && IsNext(s, p)
  {
    hide Answered;
    hide SlotsOk;
    hide ToClientOk;
    hide ToServerOk;
    assert (s.client.base - 101) % DATA == 0;
    assert HasPacket(s, s.client.base);
    p :| p in s.toServer && p.seqno == s.client.base && Carries(s.client.file, p, s.client.next);
  }

  lemma {:induction false} GoesOn(s: System)
    requires Going(s)
    ensures CanSucceed(s)
    decreases |s.client.file| - |s.server.buffer|, 101 + |s.client.file| - s.client.base, |s.client.file| - s.client.pos,
              if s.client.done then 0 else 1
  {
    hide CanSucceed;
    hide Going;
    hide Do;
    hide Enabled;
    KnowsLess(s);
    if s.client.base < s.client.next {
      if s.client.base < 101 + |s.server.buffer| {
        var step := Receive(AckPacket(101 + |s.server.buffer|));
        HearsOn(s);
        KnowsLess(Do(s, step));
        SameFile(s, step);
        GoesOn(Do(s, step));
        SucceedsAfter(s, step);
      } else {
        var p := StoresOn(s);
        KnowsLess(Do(s, ServerGets(p, false)));
        SameFile(s, ServerGets(p, false));
        GoesOn(Do(s, ServerGets(p, false)));
        SucceedsAfter(s, ServerGets(p, false));
      }
    } else {
      SendsOn(s);
      if s.client.done {
        SucceedsNow(Do(s, Finish));
        SucceedsAfter(s, Finish);
      } else {
        KnowsLess(Do(s, Send));
        SameFile(s, Send);
        GoesOn(Do(s, Send));
        SucceedsAfter(s, Send);
      }
    }
  }

  lemma SameFile(s: System, step: Step)
    requires Enabled(s, step)
    ensures Do(s, step).client.file == s.client.file
  {
  }

  // The handshake's last packet reaches the server.
  lemma ServerStarts(s: System) returns (n: nat)
    requires Good(s) && s.client.phase == Sending && s.server.stage == WaitAck
    ensures Enabled(s, ServerGets(HandshakeAck(n), false)) && Going(Do(s, ServerGets(HandshakeAck(n), false)))
  {
    hide Inv;
    hide AllSent;
    hide Answered;
    n :| HandshakeAck(n) in s.toServer;
    StaysGood(s, ServerGets(HandshakeAck(n), false));
  }

  lemma FromSending(s: System)
    requires Good(s) && s.client.phase == Sending && (s.server.stage != Refused || s.client.file == [])
    ensures CanSucceed(s)
  {
    hide CanSucceed;
    hide Inv;
    hide Sent;
    hide Do;
    hide Enabled;
    ClosedIsFinished(s);
    if s.server.stage == WaitAck {
      var n := ServerStarts(s);
      GoesOn(Do(s, ServerGets(HandshakeAck(n), false)));
      SucceedsAfter(s, ServerGets(HandshakeAck(n), false));
    } else {
      GoesOn(s);
    }
  }

  lemma ClosedIsFinished(s: System)
    requires Inv(s)
    ensures s.server.stage == Closed ==> s.client.phase == Finished
    ensures s.client.phase == Finished ==> Succeeded(s)
  {
    hide SlotsOk;
    hide ToClientOk;
    hide ToServerOk;
  }

  lemma FromAnswer(s: System)
    requires Good(s) && s.client.phase == SynSent && s.server.stage != WaitSyn && (s.server.stage != Refused || s.client.file == [])
    ensures CanSucceed(s)
  {
    hide CanSucceed;
    hide Inv;
    hide Sent;
    var step := HandshakeReply(SynAckPacket(100));
    StaysGood(s, step);
    FromSending(Do(s, step));
    SucceedsAfter(s, step);
  }

  lemma FromSyn(s: System)
    requires Good(s) && s.client.phase == SynSent && s.server.stage == WaitSyn
    ensures CanSucceed(s)
  {
    hide CanSucceed;
    hide Inv;
    hide AllSent;
    var step := ServerGets(SynPacket(), false);
    StaysGood(s, step);
    FromAnswer(Do(s, step));
    SucceedsAfter(s, step);
  }

  // ---- and where it is not -----------------------------------------------------------------

  // The client has given up, or the server has refused a file.
  ghost predicate Lost(s: System) {
    s.client.phase == Failed || (s.server.stage == Refused && s.server.buffer == [] && s.client.file != [])
  }

  lemma {:induction false} StaysLost(s: System, steps: seq<Step>, t: System)
    requires Lost(s) && Leads(s, steps, t)
    ensures Lost(t)
    decreases |steps|
  {
    if steps != [] {
      LostStep(s, steps[0]);
      StaysLost(Do(s, steps[0]), steps[1..], t);
    }
  }

  lemma LostStep(s: System, step: Step)
    requires Lost(s) && Enabled(s, step)
    ensures Lost(Do(s, step))
  {
  }

  /** As long as nothing that was sent is lost for good, success stays within reach: from every state of
      every run, whatever has been dropped, repeated or reordered, some continuation ends with send_file
      returning 0 and the whole file at the server, if and only if the client has not given up and the
      server has not refused, or had no byte to get. */
  lemma CanSucceedIff(file: Bytes, run: seq<System>, steps: seq<Step>, i: nat)
    requires IsRun(file, run, steps) && |file| <= MAXFILE && i < |run|
    ensures CanSucceed(run[i]) <==> run[i].client.phase != Failed && (run[i].server.stage != Refused || file == [])
  {
    hide IsRun;
    hide Inv;
    hide Sent;
    hide Leads;
    RunsKeepWired(file, run, steps, i);
    var s := run[i];
    ClosedIsFinished(s);
    if s.client.phase != Failed && (s.server.stage != Refused || file == []) {
      if s.client.phase == Finished {
        SucceedsNow(s);
      } else if s.client.phase == Sending {
        FromSending(s);
      } else if s.server.stage == WaitSyn {
        FromSyn(s);
      } else {
        FromAnswer(s);
      }
    } else {
      forall more, t | Leads(s, more, t) ensures !Succeeded(t) {
        StaysLost(s, more, t);
      }
    }
  }
}
