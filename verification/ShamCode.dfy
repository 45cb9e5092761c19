/** send_file and the packet handling of the server in their own form: loops over a window array and
    a receive buffer that change in place. */
module ShamCode {
  import opened Options
  import opened Sham
  import opened ShamRuns

  // What happens in one turn of send_file's loop from outside: the packet that arrives, if any, and
  // the window slots whose timers have run out.
  datatype Event = Event(answer: Option<Packet>, late: seq<bool>)

  datatype Status = Running | Success | GaveUp

  datatype Turn = Turn(client: Client, out: seq<Packet>, status: Status)

  // The loop that sends new packets, after it has sent `out`.
  function SendAll(c: Client, out: seq<Packet>): (r: (Client, seq<Packet>))
    requires c.pos <= |c.file| && |c.window| == WINDOW
    ensures r.0.pos <= |c.file| && r.0.file == c.file && |r.0.window| == WINDOW && r.0.phase == c.phase
    decreases |c.file| - c.pos, if c.done then 0 else 1
  {
    if !MaySend(c) then (c, out)
    else if Chunk(c) == [] then (SendNew(c), out)
    else SendAll(SendNew(c), out + [DataPacket(c)])
  }

  // The retransmission loop, from slot i on.
  function ScanFrom(c: Client, i: nat, late: seq<bool>, out: seq<Packet>): (t: Turn)
    requires |c.window| == WINDOW == |late| && i <= WINDOW && c.phase == Sending
    ensures |t.client.window| == WINDOW && t.client.file == c.file && t.client.pos == c.pos
    decreases WINDOW - i
  {
    if i == WINDOW || c.base + i * DATA >= c.next then Turn(c, out, Running)
    else if !late[i] then ScanFrom(c, i + 1, late, out)
    else if c.window[i].retries >= RETRIES then Turn(Retransmit(c, i), out, GaveUp)
    else ScanFrom(Retransmit(c, i), i + 1, late, out + [c.window[i].packet])
  }

  // One turn of send_file's outer loop.
  function TurnOf(c: Client, ev: Event): Turn
    requires c.pos <= |c.file| && |c.window| == WINDOW == |ev.late| && c.phase == Sending
  {
    var sent := SendAll(c, []);
    var acked := if ev.answer.Some? then OnAck(sent.0, ev.answer.value) else sent.0;
    var t := ScanFrom(acked, 0, ev.late, sent.1);
    Turn(t.client, t.out, if t.status == Running && AllAcked(t.client) then Success else t.status)
  }

  // ---- a turn is a sequence of the system's steps ------------------------------------------

  ghost predicate Leads(s: System, steps: seq<Step>, t: System)
    decreases |steps|
  {
    if steps == [] then s == t
    else Enabled(s, steps[0]) && Leads(Do(s, steps[0]), steps[1..], t)
  }

  lemma {:induction false} LeadsOn(s: System, xs: seq<Step>, t: System, ys: seq<Step>, u: System)
    requires Leads(s, xs, t) && Leads(t, ys, u)
    ensures Leads(s, xs + ys, u)
    decreases |xs|
  {
    hide Do;
    hide Enabled;
    if xs == [] {
      assert xs + ys == ys;
    } else {
      LeadsOn(Do(s, xs[0]), xs[1..], t, ys, u);
      assert (xs + ys)[1..] == xs[1..] + ys;
    }
  }

  lemma LeadsFirst(s: System, step: Step, steps: seq<Step>, t: System)
    requires Enabled(s, step) && Leads(Do(s, step), steps, t)
    ensures Leads(s, [step] + steps, t)
  {
    assert ([step] + steps)[1..] == steps;
  }

  // The client's side of the system has become c, and `out` has been sent.
  ghost predicate ClientAt(s: System, t: System, c: Client, out: seq<Packet>) {
    t.client == c && t.server == s.server && t.toClient == s.toClient && t.toServer == s.toServer + set p | p in out
  }

  ghost predicate HasSent(s: System, out: seq<Packet>) { forall p :: p in out ==> p in s.toServer }

  lemma {:induction false} SendAllLeads(s: System, out: seq<Packet>) returns (steps: seq<Step>, t: System)
    requires s.client.pos <= |s.client.file| && |s.client.window| == WINDOW && HasSent(s, out)
    ensures var r := SendAll(s.client, out); Leads(s, steps, t) && ClientAt(s, t, r.0, r.1)
    decreases |s.client.file| - s.client.pos, if s.client.done then 0 else 1
  {
    var c := s.client;
    if !MaySend(c) {
      steps, t := [], s;
    } else if Chunk(c) == [] {
      steps, t := [Send], Do(s, Send);
    } else {
      steps, t := SendAllLeads(Do(s, Send), out + [DataPacket(c)]);
      SendAllKeeps(SendNew(c), out + [DataPacket(c)], DataPacket(c));
      LeadsFirst(s, Send, steps, t);
      steps := [Send] + steps;
    }
  }

  lemma {:induction false} SendAllKeeps(c: Client, out: seq<Packet>, p: Packet)
    requires c.pos <= |c.file| && |c.window| == WINDOW && p in out
    ensures p in SendAll(c, out).1
    decreases |c.file| - c.pos, if c.done then 0 else 1
  {
    if MaySend(c) && Chunk(c) != [] {
      SendAllKeeps(SendNew(c), out + [DataPacket(c)], p);
    }
  }

  lemma {:induction false} ScanLeads(s: System, i: nat, late: seq<bool>, out: seq<Packet>) returns (steps: seq<Step>, t: System)
    requires |s.client.window| == WINDOW == |late| && i <= WINDOW && s.client.phase == Sending && HasSent(s, out)
    ensures var r := ScanFrom(s.client, i, late, out); Leads(s, steps, t) && ClientAt(s, t, r.client, r.out)
    decreases WINDOW - i
  {
    var c := s.client;
    if i == WINDOW || c.base + i * DATA >= c.next {
      steps, t := [], s;
    } else if !late[i] {
      steps, t := ScanLeads(s, i + 1, late, out);
    } else if c.window[i].retries >= RETRIES {
      steps, t := [TimeOut(i)], Do(s, TimeOut(i));
    } else {
      steps, t := ScanLeads(Do(s, TimeOut(i)), i + 1, late, out + [c.window[i].packet]);
      ScanKeeps(Retransmit(c, i), i + 1, late, out + [c.window[i].packet], c.window[i].packet);
      LeadsFirst(s, TimeOut(i), steps, t);
      steps := [TimeOut(i)] + steps;
    }
  }

  lemma {:induction false} ScanKeeps(c: Client, i: nat, late: seq<bool>, out: seq<Packet>, p: Packet)
    requires |c.window| == WINDOW == |late| && i <= WINDOW && c.phase == Sending && p in out
    ensures p in ScanFrom(c, i, late, out).out
    decreases WINDOW - i
  {
    if i < WINDOW && c.base + i * DATA < c.next {
      if !late[i] {
        ScanKeeps(c, i + 1, late, out, p);
      } else if c.window[i].retries < RETRIES {
        ScanKeeps(Retransmit(c, i), i + 1, late, out + [c.window[i].packet], p);
      }
    }
  }

  /** Whatever arrives and whichever timers run out, a turn of send_file's loop is a sequence of
      steps of the system, so all that holds in every run holds of it. */
  lemma TurnLeads(s: System, ev: Event) returns (steps: seq<Step>, t: System)
    requires s.client.pos <= |s.client.file| && |s.client.window| == WINDOW == |ev.late| && s.client.phase == Sending
    requires ev.answer.Some? ==> ev.answer.value in s.toClient
    ensures Leads(s, steps, t) && t.client == TurnOf(s.client, ev).client && HasSent(t, TurnOf(s.client, ev).out)
  {
    hide SendAll;
    hide ScanFrom;
    hide Leads;
    var xs, a := SendAllLeads(s, []);
    var b := a;
    if ev.answer.Some? {
      b := Do(a, Receive(ev.answer.value));
      LeadsNone(b);
      LeadsFirst(a, Receive(ev.answer.value), [], b);
      LeadsOn(s, xs, a, [Receive(ev.answer.value)] + [], b);
      xs := xs + ([Receive(ev.answer.value)] + []);
    }
    var ys, u := ScanLeads(b, 0, ev.late, SendAll(s.client, []).1);
    LeadsOn(s, xs, b, ys, u);
    steps, t := xs + ys, u;
  }

  lemma LeadsNone(s: System)
    ensures Leads(s, [], s)
  {
  }

  // ---- the client --------------------------------------------------------------------------

  class Sender {
    const file: Bytes
    var phase: Phase
    var pos: nat
    var done: bool
    var base: nat
    var next: nat
    const window: array<Slot>

    ghost predicate Valid()
      reads this
    {
      window.Length == WINDOW && pos <= |file|
    }

    ghost function Abs(): Client
      reads this, window
    {
      Client(file, phase, pos, done, base, next, window[..])
    }

    // send_file's start, after the handshake.
    constructor (file: Bytes)
      ensures Valid() && Abs() == Established(NewClient(file))
    {
      this.file := file;
      phase, pos, done, base, next := Sending, 0, false, 101, 101;
      window := new Slot[WINDOW](_ => Slot(false, NoPacket, 0));
    }

    // One new packet.
    method SendChunk(chunk: Bytes) returns (p: Packet)
      requires Valid() && MaySend(Abs()) && chunk == Chunk(Abs()) != []
      modifies this`pos, this`next, window
      ensures Valid() && Abs() == SendNew(old(Abs())) && p == DataPacket(old(Abs()))
    {
      ghost var c := Abs();
      var i := (next - base) / DATA % WINDOW;
      p := Packet(next, 0, false, false, false, chunk);
      window[i] := Slot(true, p, 0);
      pos, next := pos + |chunk|, next + |chunk|;
      assert window[..] == c.window[i := Slot(true, p, 0)];
    }

    method SendNewPackets() returns (out: seq<Packet>)
      requires Valid()
      modifies this, window
      ensures Valid() && (Abs(), out) == SendAll(old(Abs()), [])
    {
      hide SendNew;
      ghost var all := SendAll(Abs(), []);
      out := [];
      while phase == Sending && !done && base <= next && next - base < WINDOW * DATA
        invariant Valid() && all == SendAll(Abs(), out)
        decreases |file| - pos, if done then 0 else 1
      {
        var chunk := file[pos..Min(|file|, pos + DATA)];
        if chunk == [] {
          EndOfFile(Abs());
          done := true;
          break;
        }
        NextChunk(Abs());
        var p := SendChunk(chunk);
        out := out + [p];
      }
    }

    lemma EndOfFile(c: Client)
      requires MaySend(c) && c.pos <= |c.file| && |c.window| == WINDOW && Chunk(c) == []
      ensures SendNew(c) == c.(done := true)
    {
    }

    lemma NextChunk(c: Client)
      requires MaySend(c) && c.pos <= |c.file| && |c.window| == WINDOW && Chunk(c) != []
      ensures SendNew(c).pos == c.pos + |Chunk(c)|
    {
    }

    method HandleAnswer(p: Packet)
      modifies this`base
      ensures Abs() == OnAck(old(Abs()), p)
    {
      if p.ack {
        if p.ackno > base {
          base := p.ackno;
        }
      }
    }

    // A slot whose timer has run out; false where the client gives up.
    method ResendSlot(i: nat) returns (ok: bool)
      requires Valid() && InWindow(Abs(), i)
      modifies this`phase, window
      ensures Valid() && Abs() == Retransmit(old(Abs()), i) && ok == (old(window[i]).retries < RETRIES)
    {
      ghost var c := Abs();
      if window[i].retries >= RETRIES {
        phase := Failed;
        return false;
      }
      window[i] := window[i].(retries := window[i].retries + 1);
      assert window[..] == c.window[i := c.window[i].(retries := c.window[i].retries + 1)];
      ok := true;
    }

    // The retransmission loop, after `sent`.
    method RetransmitLate(late: seq<bool>, sent: seq<Packet>) returns (ok: bool, out: seq<Packet>)
      requires Valid() && phase == Sending && |late| == WINDOW
      modifies this`phase, window
      ensures Valid() && Turn(Abs(), out, if ok then Running else GaveUp) == ScanFrom(old(Abs()), 0, late, sent)
    {
      ghost var all := ScanFrom(Abs(), 0, late, sent);
      out := sent;
      var i := 0;
      while i < WINDOW
        invariant 0 <= i <= WINDOW && Valid() && phase == Sending
        invariant all == ScanFrom(Abs(), i, late, out)
      {
        if base + i * DATA >= next {
          break;
        }
        if late[i] {
          var p := window[i].packet;
          ok := ResendSlot(i);
          if !ok {
            return false, out;
          }
          out := out + [p];
        }
        i := i + 1;
      }
      ok := true;
    }

    /** One turn of send_file's loop. */
    method TakeTurn(ev: Event) returns (out: seq<Packet>, status: Status)
      requires Valid() && phase == Sending && |ev.late| == WINDOW
      modifies this, window
      ensures Valid() && Turn(Abs(), out, status) == TurnOf(old(Abs()), ev)
    {
      hide SendAll;
      hide ScanFrom;
      out := SendNewPackets();
      if ev.answer.Some? {
        HandleAnswer(ev.answer.value);
      }
      var ok;
      ok, out := RetransmitLate(ev.late, out);
      status := if !ok then GaveUp else if phase == Sending && done && base >= next then Success else Running;
    }
  }

  // ---- the server --------------------------------------------------------------------------

  class Receiver {
    const buffer: array<Byte>       // recv_buffer
    var size: nat
    var stage: Stage
    var expected: nat

    ghost predicate Valid()
      reads this
    {
      buffer.Length == MAXFILE && size <= MAXFILE
    }

    ghost function Abs(): Server
      reads this, buffer
      requires Valid()
    {
      Server(stage, buffer[..size], expected)
    }

    constructor ()
      ensures Valid() && Abs() == NewServer
    {
      buffer := new Byte[MAXFILE](_ => 0);
      size, stage, expected := 0, WaitSyn, 0;
    }

    /** A packet of the data loop; the copy stays inside the buffer when the data fits. */
    method TakeData(p: Packet, drop: bool) returns (out: seq<Packet>)
      requires Valid() && (!p.fin && p.seqno == expected ==> size + |p.data| <= MAXFILE)
      modifies this, buffer
      ensures Valid() && Reply(Abs(), out) == OnData(old(Abs()), p, drop)
    {
      if p.fin {
        stage := Closed;
        return [AckPacket(p.seqno + 1), Packet(expected, 0, false, false, true, [])];
      }
      if drop && p.data != [] {
        return [];
      }
      if p.data != [] && p.seqno == expected {
        var k := 0;
        while k < |p.data|
          invariant 0 <= k <= |p.data| && size == old(size) && stage == old(stage) && expected == old(expected)
          invariant size + |p.data| <= MAXFILE == buffer.Length && buffer[..size] == old(buffer[..size])
          invariant buffer[size..size + k] == p.data[..k]
        {
          buffer[size + k] := p.data[k];
          k := k + 1;
        }
        assert buffer[..size + k] == buffer[..size] + buffer[size..size + k];
        size, expected := size + |p.data|, expected + |p.data|;
        return [AckPacket(expected)];
      }
      out := [];
    }

    method TakeHandshake(p: Packet) returns (out: seq<Packet>)
      requires Valid() && (stage == WaitSyn || stage == WaitAck)
      modifies this`stage, this`expected
      ensures Valid() && Reply(Abs(), out) == OnHandshake(old(Abs()), p)
    {
      out := [];
      if stage == WaitSyn {
        if !p.syn {
          stage := Refused;
          return;
        }
        stage := WaitAck;
        return [SynAckPacket(p.seqno)];
      }
      if !p.ack {
        stage := Refused;
        return;
      }
      stage, expected := Receiving, p.seqno;
    }
  }

  /** What the network brings never overruns the receive buffer. */
  lemma DataFits(file: Bytes, run: seq<System>, steps: seq<Step>, i: nat)
    requires IsRun(file, run, steps) && |file| <= MAXFILE && i < |steps| && steps[i].ServerGets? && run[i].server.stage == Receiving
    ensures var p, v := steps[i].p, run[i].server;
            !p.fin && p.seqno == v.expected ==> |v.buffer| + |p.data| <= MAXFILE
  {
    hide Do;
    RunsKeepInv(file, run, steps, i);
    assert ToServerOk(run[i].client, steps[i].p);
  }
}
