/** The reliable transport: what each handler of one connection does to its sending and receiving half,
    and the system of two connections over a network that may lose, duplicate and reorder packets. */
module Transport {
  import opened Arith

  const MAX_PAYLOAD: nat := 500

  /** What fits into one data packet. */
  type Chunk = s: seq<byte> | |s| <= MAX_PAYLOAD

  /** A data packet without payload marks the end of the stream. */
  datatype Packet =
    | Ack(ackno: nat)
    | Data(ackno: nat, seqno: nat, payload: Chunk)

  /** The answers of conn_input: the end of the input, or some bytes, possibly none. */
  datatype Input =
    | Eof
    | Bytes(b: Chunk)

  // ---------------------------------------------------------------------------------------------
  // The sending half
  // ---------------------------------------------------------------------------------------------

  /** taken lists what was read, packet by packet, the end as an empty packet;
      sent lists the data packets handed to conn_sendpkt. */
  datatype Sender = Sender(
    window: nat,
    pktsSent: seq<Packet>,
    lastAcknoRecvd: nat,
    lastSeqnoSent: nat,
    readEof: bool,
    partial: bool,
    taken: seq<Chunk>,
    sent: seq<Packet>)

  function InitSender(window: nat): Sender
  {
    Sender(window, seq(window, _ => Ack(0)), 1, 0, false, false, [], [])
  }

  function PktIdx(seqno: int, window: nat): (i: nat)
    requires window > 0
    ensures i < window
  {
    (seqno - 1) % window
  }

  /** The subtraction is one of unsigned 32-bit numbers. */
  function AvailSendWindowSlots(s: Sender): nat
  {
    (s.window - (s.lastSeqnoSent - s.lastAcknoRecvd + 1)) % 0x1_0000_0000
  }

  function SendNewDataPkt(s: Sender, ackno: nat, data: Chunk): (s': Sender)
    requires s.window > 0 && |s.pktsSent| == s.window
    ensures s'.window == s.window && |s'.pktsSent| == s.window
  {
    var seqno := s.lastSeqnoSent + 1;
    var pkt := Data(ackno, seqno, data);
    s.(pktsSent := s.pktsSent[PktIdx(seqno, s.window) := pkt],
       lastSeqnoSent := seqno,
       taken := s.taken + [data],
       sent := s.sent + [pkt])
  }

  /** The loop of rel_read: it ends with the slots, the input, or the end of the input. */
  function ReadLoop(s: Sender, ackno: nat, slots: nat, inputs: seq<Input>): (s': Sender)
    requires s.window > 0 && |s.pktsSent| == s.window
    ensures s'.window == s.window && |s'.pktsSent| == s.window
    decreases slots
  {
    if slots == 0 || inputs == [] then s
    else
      match inputs[0]
      case Eof => SendNewDataPkt(s.(readEof := true), ackno, [])
      case Bytes(b) =>
        if b == [] then s
        else
          var s1 := SendNewDataPkt(s, ackno, b);
          var s2 := if |b| < MAX_PAYLOAD then s1.(partial := true) else s1;
          ReadLoop(s2, ackno, slots - 1, inputs[1..])
  }

  function RelRead(s: Sender, ackno: nat, inputs: seq<Input>): (s': Sender)
    requires s.window > 0 && |s.pktsSent| == s.window
    ensures s'.window == s.window && |s'.pktsSent| == s.window
  {
    if s.readEof || s.partial then s else ReadLoop(s, ackno, AvailSendWindowSlots(s), inputs)
  }

  function ProcessAckPkt(s: Sender, acked: nat, ackno: nat, inputs: seq<Input>): (s': Sender)
    requires s.window > 0 && |s.pktsSent| == s.window
    ensures s'.window == s.window && |s'.pktsSent| == s.window
  {
    if acked <= s.lastAcknoRecvd then s
    else if acked > s.lastSeqnoSent + 1 then s
    else
      var partial := s.partial && acked != s.lastSeqnoSent + 1;
      RelRead(s.(partial := partial, lastAcknoRecvd := acked), ackno, inputs)
  }

  /** Resends the oldest unacknowledged packet when its time has run out. */
  function RetransmitPkt(s: Sender, expired: bool): (s': Sender)
    requires s.window > 0 && |s.pktsSent| == s.window
    ensures s'.window == s.window && |s'.pktsSent| == s.window
  {
    if s.lastSeqnoSent < s.lastAcknoRecvd || !expired then s
    else s.(sent := s.sent + [s.pktsSent[PktIdx(s.lastAcknoRecvd, s.window)]])
  }

  // ---------------------------------------------------------------------------------------------
  // The receiving half
  // ---------------------------------------------------------------------------------------------

  /** output and eofOut are what conn_output was given; acks lists the acknowledgements sent. */
  datatype Receiver = Receiver(
    window: nat,
    pktsRecvd: seq<Packet>,
    hasRecvd: seq<bool>,
    lastAcknoSent: nat,
    lastSeqnoRecvd: nat,
    lastBytes: nat,
    lastEof: bool,
    output: seq<byte>,
    eofOut: bool,
    acks: seq<nat>)
  {
    predicate Shaped()
    {
      window > 0 && |pktsRecvd| == |hasRecvd| == window
    }
  }

  function InitReceiver(window: nat): Receiver
  {
    Receiver(window, seq(window, _ => Ack(0)), seq(window, _ => false), 1, 1, 0, false, [], false, [])
  }

  function SendAck(r: Receiver, ackno: nat): Receiver
  {
    r.(lastAcknoSent := ackno, acks := r.acks + [ackno])
  }

  function OutOfBounds(r: Receiver, seqno: nat): bool
  {
    seqno < r.lastAcknoSent || seqno >= r.lastAcknoSent + r.window
  }

  function HasBufferedPkts(r: Receiver): bool
  {
    r.lastAcknoSent < r.lastSeqnoRecvd
  }

  function PayloadOf(p: Packet): Chunk
  {
    if p.Data? then p.payload else []
  }

  /** How many bytes output_pkt passes on, given the free space. */
  function BytesToOutput(space: nat, start: nat, len: nat): (n: nat)
    ensures start <= len ==> start + n <= len
  {
    if start > len then 0 else if space < len - start then space else len - start
  }

  function CountTrue(s: seq<bool>): nat
  {
    if s == [] then 0 else (if s[0] then 1 else 0) + CountTrue(s[1..])
  }

  lemma {:induction false} CountTrueCleared(s: seq<bool>, i: nat)
    requires i < |s| && s[i]
    ensures CountTrue(s[i := false]) < CountTrue(s)
  {
    if i > 0 {
      assert s[i := false][1..] == s[1..][i - 1 := false];
      CountTrueCleared(s[1..], i - 1);
    } else {
      assert s[0 := false][1..] == s[1..];
    }
  }

  /** The packet counter of output_pkts has sixteen bits. */
  const COUNTER: nat := 0x1_0000

  /** What conn_bufspace answers at look i of a call of output_pkts; nothing beyond the looks listed. */
  function SpaceAt(spaces: seq<nat>, i: nat): nat
  {
    if i < |spaces| then spaces[i] else 0
  }

  /** The loop of output_pkts after n turns: the new state, the number of turns, and whether it left from
      the middle of a packet. The counter holds n modulo its size. */
  function OutputLoop(r: Receiver, n: nat, spaces: seq<nat>): (res: (Receiver, nat, bool))
    requires r.Shaped()
    ensures res.0.Shaped() && res.0.window == r.window
    decreases CountTrue(r.hasRecvd)
  {
    var idx := PktIdx(r.lastAcknoSent + n % COUNTER, r.window);
    if !r.hasRecvd[idx] then (r, n, false)
    else
      var payload := PayloadOf(r.pktsRecvd[idx]);
      var k := BytesToOutput(SpaceAt(spaces, n), r.lastBytes, |payload|);
      var r1 := OutputPkt(r, SpaceAt(spaces, n), k, payload);
      if r.lastBytes + k != |payload| then
        (r1.(lastBytes := r.lastBytes + k), n, true)
      else
        CountTrueCleared(r.hasRecvd, idx);
        OutputLoop(r1.(lastBytes := 0, hasRecvd := r.hasRecvd[idx := false]), n + 1, spaces)
  }

  /** The call of conn_output, if there is space: k bytes, and with no bytes the end of the output. */
  function OutputPkt(r: Receiver, space: nat, k: nat, payload: Chunk): Receiver
  {
    if space == 0 then r
    else if k == 0 then r.(eofOut := true)
    else if r.lastBytes + k <= |payload| then r.(output := r.output + payload[r.lastBytes..r.lastBytes + k])
    else r
  }

  function OutputPkts(r: Receiver, spaces: seq<nat>): (r': Receiver)
    requires r.Shaped()
    ensures r'.Shaped() && r'.window == r.window
  {
    var (r1, n, stopped) := OutputLoop(r, 0, spaces);
    if !stopped && n % COUNTER > 0 then SendAck(r1, r1.lastAcknoSent + n % COUNTER) else r1
  }

  // ---------------------------------------------------------------------------------------------
  // What a call of output_pkts will do, seen from the ring and the room
  // ---------------------------------------------------------------------------------------------

  /** Packet i of the window is held. */
  predicate HeldAt(r: Receiver, i: nat)
    requires r.Shaped()
  {
    r.hasRecvd[PktIdx(r.lastAcknoSent + i, r.window)]
  }

  /** How much of packet i is still to be put out. */
  function LeftAt(r: Receiver, i: nat): int
    requires r.Shaped()
  {
    |PayloadOf(r.pktsRecvd[PktIdx(r.lastAcknoSent + i, r.window)])| - if i == 0 then r.lastBytes else 0
  }

  /** Packet i is held, and there is room for the rest of it at look i. */
  predicate Fits(r: Receiver, spaces: seq<nat>, i: nat)
    requires r.Shaped()
  {
    HeldAt(r, i) && LeftAt(r, i) <= SpaceAt(spaces, i)
  }

  predicate FirstFit(r: Receiver, spaces: seq<nat>, n: nat)
    requires r.Shaped()
  {
    forall i: nat :: i < n ==> Fits(r, spaces, i)
  }

  /** Some packets of the window fit, and the next one is held and does not. */
  predicate MidStop(r: Receiver, spaces: seq<nat>)
    requires r.Shaped()
  {
    exists n: nat :: n < r.window && 0 < n < COUNTER && FirstFit(r, spaces, n) && HeldAt(r, n) && !Fits(r, spaces, n)
  }

  /** As many packets fit as the counter has values. */
  predicate Wraps(r: Receiver, spaces: seq<nat>)
    requires r.Shaped()
  {
    COUNTER <= r.window && FirstFit(r, spaces, COUNTER)
  }

  /** The call finishes packets and does not acknowledge them. */
  predicate LosesAck(r: Receiver, spaces: seq<nat>)
    requires r.Shaped()
  {
    MidStop(r, spaces) || Wraps(r, spaces)
  }

  function AddPktToRecvWindow(r: Receiver, p: Packet): (r': Receiver)
    requires r.Shaped() && p.Data?
    ensures r'.Shaped() && r'.window == r.window
  {
    var idx := PktIdx(p.seqno, r.window);
    r.(pktsRecvd := r.pktsRecvd[idx := p],
       hasRecvd := r.hasRecvd[idx := true],
       lastSeqnoRecvd := if p.seqno > r.lastSeqnoRecvd then p.seqno else r.lastSeqnoRecvd)
  }

  function ProcessEofPkt(r: Receiver): Receiver
  {
    SendAck(r.(lastEof := true, eofOut := true), r.lastAcknoSent + 1)
  }

  /** A packet that is neither stale, nor beyond the window, nor held already, nor after the end. */
  predicate Fresh(r: Receiver, p: Packet)
    requires r.Shaped()
  {
    p.Data? && !OutOfBounds(r, p.seqno) && !r.hasRecvd[PktIdx(p.seqno, r.window)] && !r.lastEof
  }

  /** The packet is an end mark that process_data_pkt acts on. */
  predicate AcceptsEof(r: Receiver, p: Packet)
    requires r.Shaped()
  {
    Fresh(r, p) && p.payload == [] && !HasBufferedPkts(r)
  }

  function ProcessDataPkt(r: Receiver, p: Packet, spaces: seq<nat>): (r': Receiver)
    requires r.Shaped() && p.Data?
    ensures r'.Shaped() && r'.window == r.window
  {
    if OutOfBounds(r, p.seqno) then SendAck(r, r.lastAcknoSent)
    else if r.hasRecvd[PktIdx(p.seqno, r.window)] then SendAck(r, r.lastAcknoSent)
    else if r.lastEof then SendAck(r, r.lastAcknoSent)
    else if p.payload == [] then
      if HasBufferedPkts(r) then SendAck(r, r.lastAcknoSent) else ProcessEofPkt(r)
    else OutputPkts(AddPktToRecvWindow(r, p), spaces)
  }

  // ---------------------------------------------------------------------------------------------
  // One connection, and two of them
  // ---------------------------------------------------------------------------------------------

  datatype Host = Host(snd: Sender, rcv: Receiver)
  {
    predicate Shaped()
    {
      snd.window > 0 && |snd.pktsSent| == snd.window && rcv.Shaped()
    }
  }

  function InitHost(window: nat): (h: Host)
    ensures window > 0 ==> h.Shaped()
  {
    Host(InitSender(window), InitReceiver(window))
  }

  predicate ShouldCloseConn(h: Host)
  {
    && h.rcv.lastEof
    && h.snd.readEof
    && h.snd.lastSeqnoSent + 1 == h.snd.lastAcknoRecvd
    && !HasBufferedPkts(h.rcv)
  }

  /** What can happen at one side: input is ready, a packet arrives, output has drained, the timer fires. */
  datatype Event =
    | ReadReady(inputs: seq<Input>)
    | AckArrives(k: nat, inputs: seq<Input>)
    | DataArrives(k: nat, spaces: seq<nat>)
    | Drained(spaces: seq<nat>)
    | TimerFires(expired: bool)

  /** One event at host h, whose peer has sent what peer says. Any packet ever sent may arrive at any time,
      any number of times or never: this is loss, duplication, delay and reordering. */
  function Handle(h: Host, peer: Host, e: Event): (h': Host)
    requires h.Shaped()
    ensures h'.Shaped() && h'.snd.window == h.snd.window && h'.rcv.window == h.rcv.window
  {
    match e
    case ReadReady(inputs) => h.(snd := RelRead(h.snd, h.rcv.lastAcknoSent, inputs))
    case AckArrives(k, inputs) =>
      if k >= |peer.rcv.acks| then h
      else h.(snd := ProcessAckPkt(h.snd, peer.rcv.acks[k], h.rcv.lastAcknoSent, inputs))
    case DataArrives(k, spaces) =>
      if k >= |peer.snd.sent| || !peer.snd.sent[k].Data? then h
      else h.(rcv := ProcessDataPkt(h.rcv, peer.snd.sent[k], spaces))
    case Drained(spaces) => h.(rcv := OutputPkts(h.rcv, spaces))
    case TimerFires(expired) => h.(snd := RetransmitPkt(h.snd, expired))
  }

  datatype System = System(a: Host, b: Host)

  /** An event at the first host, or at the second one. */
  datatype Step = Step(atA: bool, e: Event)

  function Next(sys: System, s: Step): (sys': System)
    requires sys.a.Shaped() && sys.b.Shaped()
    ensures sys'.a.Shaped() && sys'.b.Shaped()
    ensures sys'.a.rcv.window == sys.a.rcv.window && sys'.b.rcv.window == sys.b.rcv.window
  {
    if s.atA then sys.(a := Handle(sys.a, sys.b, s.e)) else sys.(b := Handle(sys.b, sys.a, s.e))
  }

  /** The state after a run, the first step first, from two new connections. */
  function Exec(windowA: nat, windowB: nat, run: seq<Step>): (sys: System)
    requires windowA > 0 && windowB > 0
    ensures sys.a.Shaped() && sys.b.Shaped()
    ensures sys.a.rcv.window == windowA && sys.b.rcv.window == windowB
    decreases |run|
  {
    if run == [] then System(InitHost(windowA), InitHost(windowB))
    else Next(Exec(windowA, windowB, run[..|run| - 1]), run[|run| - 1])
  }
}
