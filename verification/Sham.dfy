/** The two ends of a S.H.A.M. transfer: what client.c and server.c do with each packet. */
module Sham {

  const DATA: nat := 1024             // SHAM_DATA_SIZE
  const WINDOW: nat := 10             // SHAM_WINDOW_SIZE
  const RETRIES: nat := 10            // SHAM_MAX_RETRIES
  const MAXFILE: nat := 10485760      // the server's recv_buffer

  type Byte = n: nat | n < 256 witness 0
  type Bytes = seq<Byte>

  datatype Packet = Packet(seqno: nat, ackno: nat, syn: bool, ack: bool, fin: bool, data: Bytes)

  // ---- the client --------------------------------------------------------------------------

  // One entry of the send window; never used yet, as memset leaves it, if not `filled`.
  datatype Slot = Slot(filled: bool, packet: Packet, retries: nat)

  const NoPacket: Packet := Packet(0, 0, false, false, false, [])

  datatype Phase = SynSent | Sending | Finished | Failed

  datatype Client = Client(
    file: Bytes,
    phase: Phase,
    pos: nat,                 // bytes read from the file
    done: bool,               // done_sending
    base: nat,                // window_base
    next: nat,                // next_seq_num
    window: seq<Slot>)

  function NewClient(file: Bytes): Client {
    Client(file, SynSent, 0, false, 0, 0, seq(WINDOW, i => Slot(false, NoPacket, 0)))
  }

  function SynPacket(): Packet { Packet(100, 0, true, false, false, []) }

  // The handshake's last packet.
  function HandshakeAck(serverSeq: nat): Packet { Packet(101, serverSeq + 1, false, true, false, []) }

  // perform_handshake, from the answer on.
  function Established(c: Client): Client { c.(phase := Sending, base := 101, next := 101) }

  function Min(a: nat, b: nat): nat { if a < b then a else b }

  // fread: at most DATA bytes from where the file has been read to.
  function Chunk(c: Client): Bytes
    requires c.pos <= |c.file|
  {
    c.file[c.pos..Min(|c.file|, c.pos + DATA)]
  }

  predicate MaySend(c: Client) { c.phase == Sending && !c.done && c.base <= c.next && c.next - c.base < WINDOW * DATA }

  // The window slot of a new packet, relative to the window base of the moment.
  function SlotIndex(c: Client): nat
    requires c.base <= c.next
  {
    (c.next - c.base) / DATA % WINDOW
  }

  function DataPacket(c: Client): Packet
    requires c.pos <= |c.file|
  {
    Packet(c.next, 0, false, false, false, Chunk(c))
  }

  // One turn of the loop that sends new packets.
  function SendNew(c: Client): Client
    requires MaySend(c) && c.pos <= |c.file| && |c.window| == WINDOW
  {
    if Chunk(c) == [] then c.(done := true)
    else
      c.(pos := c.pos + |Chunk(c)|, next := c.next + |Chunk(c)|,
         window := c.window[SlotIndex(c) := Slot(true, DataPacket(c), 0)])
  }

  // A cumulative acknowledgment.
  function OnAck(c: Client, p: Packet): Client {
    if p.ack && p.ackno > c.base then c.(base := p.ackno) else c
  }

  // Slot i is in the range that the retransmission loop looks at.
  predicate InWindow(c: Client, i: nat) { c.phase == Sending && i < WINDOW == |c.window| && c.base + i * DATA < c.next }

  // A slot whose timer has run out: sent again, unless it has been too often.
  function Retransmit(c: Client, i: nat): Client
    requires InWindow(c, i)
  {
    if c.window[i].retries >= RETRIES then c.(phase := Failed)
    else c.(window := c.window[i := c.window[i].(retries := c.window[i].retries + 1)])
  }

  predicate AllAcked(c: Client) { c.phase == Sending && c.done && c.base >= c.next }

  function FinPacket(c: Client): Packet { Packet(c.next, 0, false, false, true, []) }

  // The last packet of perform_termination; its sequence number is never set.
  function FinalAck(answer: nat): Packet { Packet(0, answer + 1, false, true, false, []) }

  // ---- the server --------------------------------------------------------------------------

  datatype Stage = WaitSyn | WaitAck | Receiving | Closed | Refused

  datatype Server = Server(stage: Stage, buffer: Bytes, expected: nat)

  const NewServer: Server := Server(WaitSyn, [], 0)

  datatype Reply = Reply(server: Server, out: seq<Packet>)

  function SynAckPacket(clientSeq: nat): Packet { Packet(5000, clientSeq + 1, true, true, false, []) }

  function AckPacket(n: nat): Packet { Packet(0, n, false, true, false, []) }

  // handle_handshake, packet by packet.
  function OnHandshake(s: Server, p: Packet): Reply {
    if s.stage == WaitSyn then
      if p.syn then Reply(s.(stage := WaitAck), [SynAckPacket(p.seqno)]) else Reply(s.(stage := Refused), [])
    else if p.ack then Reply(s.(stage := Receiving, expected := p.seqno), [])
    else Reply(s.(stage := Refused), [])
  }

  // One packet of handle_data_transfer; `drop` is the simulated loss.
  function OnData(s: Server, p: Packet, drop: bool): Reply {
    if p.fin then
      Reply(s.(stage := Closed), [AckPacket(p.seqno + 1), Packet(s.expected, 0, false, false, true, [])])
    else if p.data == [] || drop || p.seqno != s.expected then Reply(s, [])
    else
      Reply(s.(buffer := s.buffer + p.data, expected := s.expected + |p.data|), [AckPacket(s.expected + |p.data|)])
  }
}
