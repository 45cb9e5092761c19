/** A run after which a packet in flight is in no window slot: slots are indexed relative to the
    window base, and the base moves. */
module ShamDrift {
  import opened Sham
  import opened ShamRuns

  ghost function File(): (f: Bytes)
    ensures |f| == 12 * DATA && forall k :: 0 <= k < 12 * DATA ==> f[k] == 0
  {
    seq(12 * DATA, k => 0)
  }

  ghost predicate Reached(run: seq<System>, steps: seq<Step>, s: System) {
    IsRun(File(), run, steps) && run[|steps|] == s
  }

  lemma Extend(run: seq<System>, steps: seq<Step>, s: System, step: Step)
    requires Reached(run, steps, s) && Enabled(s, step)
    ensures Reached(run + [Do(s, step)], steps + [step], Do(s, step))
  {
    hide Do;
    hide Enabled;
    var run', steps' := run + [Do(s, step)], steps + [step];
    forall i | 0 <= i < |steps'| ensures Enabled(run'[i], steps'[i]) && run'[i + 1] == Do(run'[i], steps'[i]) {
      if i < |steps| {
        assert run'[i] == run[i] && run'[i + 1] == run[i + 1] && steps'[i] == steps[i];
      }
    }
  }

  // The client has sent the first k packets.
  ghost predicate SentBy(c: Client, k: nat) {
    && k <= WINDOW && c.file == File() && c.phase == Sending && !c.done
    && c.base == 101 && c.pos == DATA * k && c.next == 101 + DATA * k && |c.window| == WINDOW
    && (forall i :: 0 <= i < k ==> c.window[i].packet.seqno == 101 + DATA * i)
  }

  // The handshake is over, the first k packets have been sent, and none has arrived.
  ghost predicate Sent(s: System, k: nat) {
    && SentBy(s.client, k) && s.server == Server(Receiving, [], 101)
    && (k > 0 ==> Packet(101, 0, false, false, false, File()[..DATA]) in s.toServer)
  }

  lemma Handshake() returns (run: seq<System>, steps: seq<Step>, s: System)
    ensures Reached(run, steps, s) && Sent(s, 0)
  {
    s := Boot(File());
    run, steps := [s], [];
    run, steps, s := Step(run, steps, s, ServerGets(SynPacket(), false));
    run, steps, s := Step(run, steps, s, HandshakeReply(SynAckPacket(100)));
    run, steps, s := Step(run, steps, s, ServerGets(HandshakeAck(5000), false));
  }

  lemma Step(run: seq<System>, steps: seq<Step>, s: System, step: Step)
    returns (run': seq<System>, steps': seq<Step>, s': System)
    requires Reached(run, steps, s) && Enabled(s, step)
    ensures Reached(run', steps', s') && s' == Do(s, step)
  {
    Extend(run, steps, s, step);
    run', steps', s' := run + [Do(s, step)], steps + [step], Do(s, step);
  }

  lemma SendOne(s: System, k: nat)
    requires Sent(s, k) && k < WINDOW
    ensures Enabled(s, Send) && Sent(Do(s, Send), k + 1)
  {
    var c := s.client;
    assert Chunk(c) == File()[DATA * k..DATA * k + DATA];
    assert SlotIndex(c) == k;
  }

  lemma SendTen() returns (run: seq<System>, steps: seq<Step>, s: System)
    ensures Reached(run, steps, s) && Sent(s, WINDOW)
  {
    run, steps, s := Handshake();
    for k := 0 to WINDOW
      invariant Reached(run, steps, s) && Sent(s, k)
    {
      SendOne(s, k);
      run, steps, s := Step(run, steps, s, Send);
    }
  }

  // The server stores the first packet, its answer arrives, and the eleventh packet goes out.
  lemma AckOne(s: System)
    requires Sent(s, WINDOW)
    ensures var p := Packet(101, 0, false, false, false, File()[..DATA]);
            Enabled(s, ServerGets(p, false))
            && var t := Do(s, ServerGets(p, false)); t.client == s.client && AckPacket(101 + DATA) in t.toClient
  {
  }

  lemma SendEleventh(s: System)
    requires SentBy(s.client, WINDOW) && AckPacket(101 + DATA) in s.toClient
    ensures Enabled(s, Receive(AckPacket(101 + DATA))) && var t := Do(s, Receive(AckPacket(101 + DATA)));
            Enabled(t, Send) && var u := Do(t, Send); Drifted(u.client)
  {
    var t := Do(s, Receive(AckPacket(101 + DATA)));
    assert Chunk(t.client) == File()[10 * DATA..11 * DATA];
    assert SlotIndex(t.client) == 9;
  }

  // The packet at window_base + 8 * SHAM_DATA_SIZE is in flight, slot 8 holds another one, and no
  // slot holds it: if it is lost it cannot be sent again.
  ghost predicate Drifted(c: Client) {
    && InWindow(c, 8) && c.window[8].packet.seqno != c.base + 8 * DATA
    && forall i :: 0 <= i < WINDOW ==> c.window[i].packet.seqno != c.base + 8 * DATA
  }

  /** Slot i need not hold the packet at window_base + i * SHAM_DATA_SIZE: a witness of
      SlotsFallOutIff. */
  lemma SlotsDrift() returns (run: seq<System>, steps: seq<Step>)
    ensures IsRun(File(), run, steps) && Drifted(run[|steps|].client) && !SlotsInStep(run[|steps|].client)
  {
    hide Do;
    hide Enabled;
    var s;
    run, steps, s := SendTen();
    AckOne(s);
    run, steps, s := Step(run, steps, s, ServerGets(Packet(101, 0, false, false, false, File()[..DATA]), false));
    SendEleventh(s);
    run, steps, s := Step(run, steps, s, Receive(AckPacket(101 + DATA)));
    run, steps, s := Step(run, steps, s, Send);
  }
}
