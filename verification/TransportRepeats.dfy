/** What becomes of packets that were put out and not acknowledged: they can arrive again and are put out again. */
module TransportRepeats {
  import opened Arith
  import opened Transport
  import opened TransportSafety
  import opened TransportWindows

  // ---------------------------------------------------------------------------------------------
  // Everything read has been sent
  // ---------------------------------------------------------------------------------------------

  /** Packet n of the stream is among those sent. */
  ghost predicate Sent(s: Sender, n: nat)
  {
    exists k: nat :: k < |s.sent| && IsPkt(s.sent[k], n, s.taken)
  }

  ghost predicate AllSent(s: Sender)
  {
    |s.taken| == s.lastSeqnoSent && forall n: nat :: 1 <= n <= |s.taken| ==> Sent(s, n)
  }

  lemma SentStays(s: Sender, s': Sender, n: nat)
    requires Sent(s, n) && s.sent <= s'.sent && s.taken <= s'.taken
    ensures Sent(s', n)
  {
    var k: nat :| k < |s.sent| && IsPkt(s.sent[k], n, s.taken);
    assert s'.sent[k] == s.sent[k] && s'.taken[n - 1] == s.taken[n - 1];
  }

  lemma NewIsSent(s: Sender, ackno: nat, data: Chunk)
    requires AllSent(s) && s.window > 0 && |s.pktsSent| == s.window
    ensures AllSent(SendNewDataPkt(s, ackno, data))
  {
    var s' := SendNewDataPkt(s, ackno, data);
    forall n: nat | 1 <= n <= |s'.taken|
      ensures Sent(s', n)
    {
      if n <= |s.taken| {
        SentStays(s, s', n);
      } else {
        assert IsPkt(s'.sent[|s.sent|], n, s'.taken);
      }
    }
  }

  /** The record and the stream alone decide. */
  lemma AllSentSame(s: Sender, s': Sender)
    requires AllSent(s) && s'.sent == s.sent && s'.taken == s.taken && s'.lastSeqnoSent == s.lastSeqnoSent
    ensures AllSent(s')
  {
    forall n: nat | 1 <= n <= |s'.taken|
      ensures Sent(s', n)
    {
      SentStays(s, s', n);
    }
  }

  lemma {:induction false} ReadLoopSends(s: Sender, ackno: nat, slots: nat, inputs: seq<Input>)
    requires AllSent(s) && s.window > 0 && |s.pktsSent| == s.window
    ensures AllSent(ReadLoop(s, ackno, slots, inputs))
    decreases slots
  {
    if slots > 0 && inputs != [] {
      match inputs[0]
      case Eof =>
        AllSentSame(s, s.(readEof := true));
        NewIsSent(s.(readEof := true), ackno, []);
      case Bytes(b) =>
        if b != [] {
          NewIsSent(s, ackno, b);
          var s1 := SendNewDataPkt(s, ackno, b);
          var s2 := if |b| < MAX_PAYLOAD then s1.(partial := true) else s1;
          AllSentSame(s1, s2);
          ReadLoopSends(s2, ackno, slots - 1, inputs[1..]);
        }
    }
  }

  lemma RelReadSends(s: Sender, ackno: nat, inputs: seq<Input>)
    requires AllSent(s) && s.window > 0 && |s.pktsSent| == s.window
    ensures AllSent(RelRead(s, ackno, inputs))
  {
    if !s.readEof && !s.partial {
      ReadLoopSends(s, ackno, AvailSendWindowSlots(s), inputs);
    }
  }

  lemma AckSends(s: Sender, acked: nat, ackno: nat, inputs: seq<Input>)
    requires AllSent(s) && s.window > 0 && |s.pktsSent| == s.window
    ensures AllSent(ProcessAckPkt(s, acked, ackno, inputs))
  {
    if s.lastAcknoRecvd < acked <= s.lastSeqnoSent + 1 {
      var s1 := s.(partial := s.partial && acked != s.lastSeqnoSent + 1, lastAcknoRecvd := acked);
      AllSentSame(s, s1);
      RelReadSends(s1, ackno, inputs);
    }
  }

  lemma TimerSends(s: Sender, expired: bool)
    requires AllSent(s) && s.window > 0 && |s.pktsSent| == s.window
    ensures AllSent(RetransmitPkt(s, expired))
  {
    var s' := RetransmitPkt(s, expired);
    forall n: nat | 1 <= n <= |s'.taken|
      ensures Sent(s', n)
    {
      SentStays(s, s', n);
    }
  }

  lemma HandleSends(h: Host, peer: Host, e: Event)
    requires h.Shaped() && AllSent(h.snd)
    ensures AllSent(Handle(h, peer, e).snd)
  {
    match e
    case ReadReady(inputs) => RelReadSends(h.snd, h.rcv.lastAcknoSent, inputs);
    case AckArrives(k, inputs) =>
      if k < |peer.rcv.acks| { AckSends(h.snd, peer.rcv.acks[k], h.rcv.lastAcknoSent, inputs); }
    case TimerFires(expired) => TimerSends(h.snd, expired);
    case _ =>
  }

  /** In every run all that was read has been sent, so each packet can arrive at any later time. */
  lemma {:induction false} RunSends(windowA: nat, windowB: nat, run: seq<Step>)
    requires windowA > 0 && windowB > 0
    ensures AllSent(Exec(windowA, windowB, run).a.snd) && AllSent(Exec(windowA, windowB, run).b.snd)
    decreases |run|
  {
    if run != [] {
      var before, s := run[..|run| - 1], run[|run| - 1];
      RunSends(windowA, windowB, before);
      var (h, peer) := At(Exec(windowA, windowB, before), s);
      HandleSends(h, peer, s.e);
    }
  }

  // ---------------------------------------------------------------------------------------------
  // A receiver that has put packets out and not acknowledged them
  // ---------------------------------------------------------------------------------------------

  /** The receiver as if it had put out nothing of its window. */
  ghost function Rewound(r: Receiver, cs: seq<Chunk>): Receiver
    requires 1 <= r.lastAcknoSent <= |cs| + 1
  {
    r.(output := Concat(cs[..r.lastAcknoSent - 1]), lastBytes := 0)
  }

  /** The first n packets of the window were put out, and not acknowledged; the one after them is held, or there
      are as many of them as the counter has values. */
  ghost predicate Unacked(r: Receiver, n: nat, cs: seq<Chunk>)
  {
    && r.Shaped() && 1 <= n <= COUNTER && n <= r.window && 1 <= r.lastAcknoSent && r.lastAcknoSent + n <= |cs| + 1
    && (forall i :: r.lastAcknoSent - 1 <= i < r.lastAcknoSent - 1 + n ==> |cs[i]| > 0)
    && OpenInv(Rewound(r, cs), cs) && !HeldAt(r, 0)
    && (n < COUNTER ==> n < r.window && HeldAt(r, n))
  }

  /** All of it but the output and the acknowledgements is the same. */
  predicate SameRing(r: Receiver, r': Receiver)
  {
    && r'.window == r.window && r'.pktsRecvd == r.pktsRecvd && r'.hasRecvd == r.hasRecvd
    && r'.lastAcknoSent == r.lastAcknoSent && r'.lastSeqnoRecvd == r.lastSeqnoRecvd
    && r'.lastEof == r.lastEof && r'.eofOut == r.eofOut
  }

  lemma OpenSame(r: Receiver, r': Receiver, taken: seq<Chunk>)
    requires OpenInv(r, taken) && r.lastBytes == 0
    requires SameRing(r, r') && r'.output == r.output && r'.lastBytes == 0
    ensures OpenInv(r', taken)
  {
    SlotsSame(r, r', r.lastAcknoSent, taken);
  }

  lemma UnackedSame(r: Receiver, r': Receiver, n: nat, cs: seq<Chunk>)
    requires Unacked(r, n, cs) && SameRing(r, r')
    ensures Unacked(r', n, cs)
  {
    OpenSame(Rewound(r, cs), Rewound(r', cs), cs);
  }

  lemma RewoundSlots(r: Receiver, n: nat, cs: seq<Chunk>, g: Receiver)
    requires LoopInv(r, n, cs) && SameRing(r, g)
    ensures Slots(g, g.lastAcknoSent, cs)
  {
    SlotsSame(r, g, r.lastAcknoSent + n, cs);
  }

  /** The state that the loop leaves after n packets. */
  lemma UnackedFrom(r: Receiver, n: nat, cs: seq<Chunk>)
    requires LoopInv(r, n, cs) && 1 <= n <= COUNTER && !r.lastEof
    requires n < COUNTER ==> n < r.window && HeldAt(r, n)
    ensures Unacked(r, n, cs)
  {
    var m := r.lastAcknoSent;
    assert Delivered(r, m + n, cs);
    RewoundSlots(r, n, cs, Rewound(r, cs));
    assert !Flag(r, m);
  }

  // ---------------------------------------------------------------------------------------------
  // What the loop does not look at
  // ---------------------------------------------------------------------------------------------

  /** One turn of the loop on a held packet, and whether it leaves from its middle. */
  ghost function Turned(r: Receiver, n: nat, spaces: seq<nat>): (Receiver, bool)
    requires r.Shaped()
  {
    var idx := PktIdx(r.lastAcknoSent + n % COUNTER, r.window);
    var payload := PayloadOf(r.pktsRecvd[idx]);
    var k := BytesToOutput(SpaceAt(spaces, n), r.lastBytes, |payload|);
    var r1 := OutputPkt(r, SpaceAt(spaces, n), k, payload);
    if r.lastBytes + k != |payload| then (r1.(lastBytes := r.lastBytes + k), true)
    else (r1.(lastBytes := 0, hasRecvd := r.hasRecvd[idx := false]), false)
  }

  lemma LoopIs(r: Receiver, n: nat, spaces: seq<nat>, t: (Receiver, bool))
    requires r.Shaped() && HeldAt(r, n % COUNTER) && t == Turned(r, n, spaces)
    ensures t.1 ==> OutputLoop(r, n, spaces) == (t.0, n, true)
    ensures !t.1 ==> t.0.Shaped() && CountTrue(t.0.hasRecvd) < CountTrue(r.hasRecvd)
    ensures !t.1 ==> OutputLoop(r, n, spaces) == OutputLoop(t.0, n + 1, spaces)
  {
    CountTrueCleared(r.hasRecvd, PktIdx(r.lastAcknoSent + n % COUNTER, r.window));
  }

  function Shifted(r: Receiver, x: seq<byte>): Receiver
  {
    r.(output := x + r.output)
  }

  lemma TurnShift(r: Receiver, x: seq<byte>, n: nat, spaces: seq<nat>)
    requires r.Shaped()
    ensures Turned(Shifted(r, x), n, spaces) == (Shifted(Turned(r, n, spaces).0, x), Turned(r, n, spaces).1)
  {
    var payload := PayloadOf(r.pktsRecvd[PktIdx(r.lastAcknoSent + n % COUNTER, r.window)]);
    var k := BytesToOutput(SpaceAt(spaces, n), r.lastBytes, |payload|);
    if r.lastBytes + k <= |payload| {
      var more := payload[r.lastBytes..r.lastBytes + k];
      assert x + r.output + more == x + (r.output + more);
    }
  }

  function ShiftedResult(res: (Receiver, nat, bool), x: seq<byte>): (Receiver, nat, bool)
  {
    (Shifted(res.0, x), res.1, res.2)
  }

  /** A turn with different output before it. */
  lemma TurnBoth(loop: Loop, r: Receiver, x: seq<byte>, n: nat, spaces: seq<nat>) returns (next: Receiver, ends: bool)
    requires Loops(loop, spaces) && r.Shaped()
    ensures ends ==> loop(Shifted(r, x), n) == ShiftedResult(loop(r, n), x)
    ensures !ends ==> next.Shaped() && CountTrue(next.hasRecvd) < CountTrue(r.hasRecvd)
    ensures !ends ==> loop(r, n) == loop(next, n + 1) && loop(Shifted(r, x), n) == loop(Shifted(next, x), n + 1)
  {
    next, ends := r, true;
    assert LoopsAt(loop, spaces, r, n) && LoopsAt(loop, spaces, Shifted(r, x), n);
    if HeldAt(r, n % COUNTER) {
      var t := Turned(r, n, spaces);
      TurnShift(r, x, n, spaces);
      LoopIs(r, n, spaces, t);
      LoopIs(Shifted(r, x), n, spaces, (Shifted(t.0, x), t.1));
      next, ends := t.0, t.1;
      assert LoopsAt(loop, spaces, next, n + 1) && LoopsAt(loop, spaces, Shifted(next, x), n + 1);
    } else {
      LoopAtFree(r, n, spaces, n % COUNTER);
      LoopAtFree(Shifted(r, x), n, spaces, n % COUNTER);
    }
  }

  lemma {:induction false} ShiftOnward(loop: Loop, r: Receiver, x: seq<byte>, n: nat, spaces: seq<nat>)
    requires Loops(loop, spaces) && r.Shaped()
    ensures loop(Shifted(r, x), n) == ShiftedResult(loop(r, n), x)
    decreases CountTrue(r.hasRecvd)
  {
    var next, ends := TurnBoth(loop, r, x, n, spaces);
    if !ends {
      ShiftOnward(loop, next, x, n + 1, spaces);
    }
  }

  /** The loop does the same whatever was put out before. */
  lemma OutputShift(r: Receiver, x: seq<byte>, n: nat, spaces: seq<nat>)
    requires r.Shaped()
    ensures OutputLoop(Shifted(r, x), n, spaces) == ShiftedResult(OutputLoop(r, n, spaces), x)
  {
    var loop := LoopWithLoops(spaces);
    ShiftOnward(loop, r, x, n, spaces);
    assert LoopsAt(loop, spaces, r, n) && LoopsAt(loop, spaces, Shifted(r, x), n);
  }

  /** Where the loop leaves a packet, it stays held; an end that was announced stays so. */
  ghost predicate Leaves(r: Receiver, res: (Receiver, nat, bool))
  {
    && res.0.Shaped() && res.0.lastAcknoSent == r.lastAcknoSent && res.0.lastEof == r.lastEof
    && (r.eofOut ==> res.0.eofOut) && (res.2 ==> HeldAt(res.0, res.1 % COUNTER))
  }

  lemma TurnLeaves(r: Receiver, n: nat, spaces: seq<nat>, t: (Receiver, bool))
    requires r.Shaped() && t == Turned(r, n, spaces)
    ensures t.0.lastAcknoSent == r.lastAcknoSent && t.0.lastEof == r.lastEof && (r.eofOut ==> t.0.eofOut)
    ensures t.1 ==> t.0.Shaped() && HeldAt(t.0, n % COUNTER) == HeldAt(r, n % COUNTER)
  {
  }

  lemma {:induction false} LoopLeaves(r: Receiver, n: nat, spaces: seq<nat>)
    requires r.Shaped()
    ensures Leaves(r, OutputLoop(r, n, spaces))
    decreases CountTrue(r.hasRecvd)
  {
    if HeldAt(r, n % COUNTER) {
      var t := Turned(r, n, spaces);
      LoopIs(r, n, spaces, t);
      TurnLeaves(r, n, spaces, t);
      if !t.1 { LoopLeaves(t.0, n + 1, spaces); }
    } else {
      LoopAtFree(r, n, spaces, n % COUNTER);
    }
  }

  // ---------------------------------------------------------------------------------------------
  // The step that goes wrong
  // ---------------------------------------------------------------------------------------------

  /** A call that finishes packets without acknowledging them leaves the receiver so. */
  lemma LostIsUnacked(r: Receiver, spaces: seq<nat>, cs: seq<Chunk>) returns (n: nat)
    requires OpenInv(r, cs) && LosesAck(r, spaces)
    ensures Unacked(OutputPkts(r, spaces), n, cs)
    ensures OutputPkts(r, spaces).lastEof == r.lastEof
  {
    OutputLoopKeeps(r, spaces, cs);
    TurnsExact(r, spaces, cs);
    LoopLeaves(r, 0, spaces);
    var res := OutputLoop(r, 0, spaces);
    n := res.1;
    OutputPktsIs(r, spaces, res.0, n, res.2);
    assert n < COUNTER ==> n % COUNTER == n;
    UnackedFrom(res.0, n, cs);
  }

  // ---------------------------------------------------------------------------------------------
  // One more round of the same packets
  // ---------------------------------------------------------------------------------------------

  /** Nothing that was held is lost, and nothing is put out. */
  ghost predicate Kept(r: Receiver, r': Receiver)
    requires r.Shaped() && r'.Shaped()
  {
    && r'.window == r.window && r'.lastAcknoSent == r.lastAcknoSent && r'.output == r.output
    && r'.lastBytes == r.lastBytes
    && forall j: nat :: HeldAt(r, j) ==> HeldAt(r', j)
  }

  /** A packet of the n joins the ring. */
  lemma Rejoins(r: Receiver, n: nat, cs: seq<Chunk>, p: Packet, i: nat)
    requires Unacked(r, n, cs) && i < n && IsPkt(p, r.lastAcknoSent + i, cs) && !HeldAt(r, i)
    ensures p.payload != [] && Fresh(r, p)
    ensures var r1 := AddPktToRecvWindow(r, p);
      && OpenInv(Rewound(r1, cs), cs) && Kept(r, r1) && HeldAt(r1, i)
      && (n < COUNTER ==> HeldAt(r1, n)) && r1.lastEof == r.lastEof && r1.eofOut == r.eofOut
  {
    var r1 := AddPktToRecvWindow(r, p);
    assert |cs[p.seqno - 1]| > 0;
    AddPktKeeps(Rewound(r, cs), p, cs);
    assert Rewound(r1, cs) == AddPktToRecvWindow(Rewound(r, cs), p);
  }

  /** A packet that was put out, but not the first one, arrives again and waits. */
  lemma WaitsAgain(r: Receiver, n: nat, cs: seq<Chunk>, p: Packet, i: nat, spaces: seq<nat>)
    requires Unacked(r, n, cs) && 0 < i < n && IsPkt(p, r.lastAcknoSent + i, cs)
    ensures var r' := ProcessDataPkt(r, p, spaces);
      Unacked(r', n, cs) && HeldAt(r', i) && Kept(r, r')
  {
    if HeldAt(r, i) {
      UnackedSame(r, SendAck(r, r.lastAcknoSent), n, cs);
    } else {
      Rejoins(r, n, cs, p, i);
      PktIdxDistinct(r.lastAcknoSent, r.lastAcknoSent + i, r.window);
      NothingOut(AddPktToRecvWindow(r, p), spaces);
    }
  }

  /** What conn_bufspace can answer in one call of output_pkts: from a queue that is empty everything may be written at
      once; after that the queue takes what is put out, and nothing leaves it. */
  predicate Queued(spaces: seq<nat>, window: nat)
  {
    forall i: nat :: i + 1 < window ==> QueuedAt(SpaceAt(spaces, i), SpaceAt(spaces, i + 1))
  }

  predicate QueuedAt(space: nat, next: nat)
  {
    space <= BUFSIZE && next <= BUFSIZE && space <= next + MAX_PAYLOAD && (space < BUFSIZE ==> next <= space)
  }

  /** The room that is used up exactly when packets of these lengths are put out. */
  function Rooms(lens: seq<nat>): (spaces: seq<nat>)
    ensures |spaces| == |lens|
  {
    if lens == [] then []
    else
      var rest := Rooms(lens[1..]);
      [if lens[0] + SpaceAt(rest, 0) < BUFSIZE then lens[0] + SpaceAt(rest, 0) else BUFSIZE] + rest
  }

  lemma {:induction false} RoomsFit(lens: seq<nat>, i: nat)
    requires forall j :: 0 <= j < |lens| ==> lens[j] <= MAX_PAYLOAD
    ensures i < |lens| ==> lens[i] <= SpaceAt(Rooms(lens), i)
    ensures QueuedAt(SpaceAt(Rooms(lens), i), SpaceAt(Rooms(lens), i + 1))
  {
    if lens != [] {
      if i > 0 { RoomsFit(lens[1..], i - 1); } else { RoomsFit(lens[1..], 0); }
    }
  }

  /** The lengths of n packets from number m on; of the first one, skip bytes are out. */
  function Lens(cs: seq<Chunk>, m: nat, n: nat, skip: nat): (lens: seq<nat>)
    requires 1 <= m && 1 <= n && m - 1 + n <= |cs| && skip <= |cs[m - 1]|
    ensures |lens| == n && lens[0] == |cs[m - 1]| - skip && forall j :: 0 < j < n ==> lens[j] == |cs[m - 1 + j]|
    ensures forall j :: 0 <= j < n ==> lens[j] <= MAX_PAYLOAD
  {
    [|cs[m - 1]| - skip] + seq(n - 1, j requires 0 <= j < n - 1 => |cs[m + j]|)
  }

  /** The n packets fit one by one, and after them there is no room. */
  ghost predicate JustFits(cs: seq<Chunk>, m: nat, n: nat, spaces: seq<nat>)
    requires 1 <= m && m - 1 + n <= |cs|
  {
    (forall j: nat :: j < n ==> |cs[m - 1 + j]| <= SpaceAt(spaces, j)) && SpaceAt(spaces, n) == 0
  }

  lemma RoomsJustFit(cs: seq<Chunk>, m: nat, n: nat, spaces: seq<nat>)
    requires 1 <= m && 1 <= n && m - 1 + n <= |cs| && spaces == Rooms(Lens(cs, m, n, 0))
    ensures JustFits(cs, m, n, spaces)
  {
    var lens := Lens(cs, m, n, 0);
    forall j: nat | j < n
      ensures |cs[m - 1 + j]| <= SpaceAt(spaces, j)
    {
      RoomsFit(lens, j);
      assert lens[j] == |cs[m - 1 + j]|;
    }
  }

  lemma RoomsQueued(lens: seq<nat>, window: nat)
    requires forall j :: 0 <= j < |lens| ==> lens[j] <= MAX_PAYLOAD
    ensures Queued(Rooms(lens), window)
  {
    forall i: nat | i + 1 < window
      ensures QueuedAt(SpaceAt(Rooms(lens), i), SpaceAt(Rooms(lens), i + 1))
    {
      RoomsFit(lens, i);
    }
  }

  /** What is out of the first packet changes the room at the first look alone. */
  lemma RoomsLater(cs: seq<Chunk>, m: nat, n: nat, skip: nat, i: nat)
    requires 1 <= m && 1 <= n && m - 1 + n <= |cs| && skip <= |cs[m - 1]| && i >= 1
    ensures SpaceAt(Rooms(Lens(cs, m, n, skip)), i) == SpaceAt(Rooms(Lens(cs, m, n, 0)), i)
  {
    assert Lens(cs, m, n, skip)[1..] == Lens(cs, m, n, 0)[1..];
  }

  /** The window holds the n packets again, and what comes after them as before. */
  ghost predicate Refilled(g: Receiver, n: nat, cs: seq<Chunk>)
  {
    && OpenInv(g, cs) && g.lastBytes == 0 && 1 <= n <= COUNTER && n <= g.window
    && (forall j: nat :: j < n ==> HeldAt(g, j))
    && (n < COUNTER ==> n < g.window && HeldAt(g, n))
  }

  /** Each of the n packets fits, the next one does not. */
  lemma EachFits(g: Receiver, n: nat, cs: seq<Chunk>, spaces: seq<nat>, j: nat)
    requires Refilled(g, n, cs) && g.lastAcknoSent - 1 + n <= |cs| && JustFits(cs, g.lastAcknoSent, n, spaces)
    requires j <= n && (j == n ==> n < COUNTER)
    ensures HeldAt(g, j) && (Fits(g, spaces, j) <==> j < n)
  {
    assert HeldAt(g, j);
    assert Flag(g, g.lastAcknoSent + j);
  }

  /** The loop puts out the n packets, and no acknowledgement follows. */
  lemma FullRound(g: Receiver, n: nat, cs: seq<Chunk>, spaces: seq<nat>) returns (g': Receiver)
    requires Refilled(g, n, cs) && g.lastAcknoSent - 1 + n <= |cs| && JustFits(cs, g.lastAcknoSent, n, spaces)
    ensures OutputLoop(g, 0, spaces) == (g', n, n < COUNTER) && LoopInv(g', n, cs) && g'.lastBytes == 0
    ensures g'.lastAcknoSent == g.lastAcknoSent && !g'.lastEof && Unacked(g', n, cs)
  {
    OutputLoopKeeps(g, spaces, cs);
    LoopLeaves(g, 0, spaces);
    var res := OutputLoop(g, 0, spaces);
    g' := res.0;
    RoundEnds(g, n, cs, spaces, res);
    assert n < COUNTER ==> n % COUNTER == n;
    UnackedFrom(g', n, cs);
  }

  lemma RoundEnds(g: Receiver, n: nat, cs: seq<Chunk>, spaces: seq<nat>, res: (Receiver, nat, bool))
    requires Refilled(g, n, cs) && g.lastAcknoSent - 1 + n <= |cs| && JustFits(cs, g.lastAcknoSent, n, spaces)
    requires LoopResult(g, 0, spaces, res, cs)
    ensures res.1 == n && res.2 == (n < COUNTER) && res.0.lastBytes == 0
  {
    if res.1 < n {
      EachFits(g, n, cs, spaces, res.1);
    } else if n < COUNTER {
      EachFits(g, n, cs, spaces, n);
    }
  }

  lemma Refills(r: Receiver, n: nat, cs: seq<Chunk>, p: Packet) returns (r1: Receiver)
    requires Unacked(r, n, cs) && IsPkt(p, r.lastAcknoSent, cs) && forall j: nat :: 0 < j < n ==> HeldAt(r, j)
    ensures r1 == AddPktToRecvWindow(r, p) && p.payload != [] && Fresh(r, p)
    ensures Refilled(Rewound(r1, cs), n, cs) && HeldAt(r1, 0) && !r1.lastEof
  {
    Rejoins(r, n, cs, p, 0);
    r1 := AddPktToRecvWindow(r, p);
    var g := Rewound(r1, cs);
    forall j: nat | j < n
      ensures HeldAt(g, j)
    {
      assert j > 0 ==> HeldAt(r, j);
      assert HeldAt(r1, j);
    }
  }

  /** The first turn, on packet p, for which there is room. */
  lemma FirstTurn(r: Receiver, p: Packet, spaces: seq<nat>) returns (done: Receiver)
    requires r.Shaped() && HeldAt(r, 0) && r.pktsRecvd[PktIdx(r.lastAcknoSent, r.window)] == p && p.Data?
    requires r.lastBytes < |p.payload| <= r.lastBytes + SpaceAt(spaces, 0)
    ensures done == Finished(r, p.payload, PktIdx(r.lastAcknoSent, r.window)) && done.Shaped()
    ensures OutputLoop(r, 0, spaces) == OutputLoop(done, 1, spaces)
  {
    OutputTurn(r, 0, spaces, p.payload, |p.payload| - r.lastBytes);
    done := Finished(r, p.payload, PktIdx(r.lastAcknoSent, r.window));
  }

  lemma TurnRoom(r: Receiver, n: nat, spaces: seq<nat>, spaces': seq<nat>)
    requires r.Shaped() && SpaceAt(spaces, n) == SpaceAt(spaces', n)
    ensures Turned(r, n, spaces) == Turned(r, n, spaces')
  {
  }

  /** From turn n on, the loop looks at the room from look n on. */
  lemma {:induction false} SameRooms(r: Receiver, n: nat, spaces: seq<nat>, spaces': seq<nat>)
    requires r.Shaped() && forall i: nat :: n <= i ==> SpaceAt(spaces, i) == SpaceAt(spaces', i)
    ensures OutputLoop(r, n, spaces) == OutputLoop(r, n, spaces')
    decreases CountTrue(r.hasRecvd)
  {
    if HeldAt(r, n % COUNTER) {
      var t := Turned(r, n, spaces);
      TurnRoom(r, n, spaces, spaces');
      LoopIs(r, n, spaces, t);
      LoopIs(r, n, spaces', t);
      if !t.1 { SameRooms(t.0, n + 1, spaces, spaces'); }
    } else {
      LoopAtFree(r, n, spaces, n % COUNTER);
      LoopAtFree(r, n, spaces', n % COUNTER);
    }
  }

  /** Receivers that differ in their output alone go on alike. */
  lemma LaterTurns(done0: Receiver, done: Receiver, n: nat, spaces: seq<nat>, res: (Receiver, nat, bool))
      returns (r': Receiver)
    requires done0.Shaped() && done0 == done.(output := done0.output) && OutputLoop(done0, n, spaces) == res
    ensures OutputLoop(done, n, spaces) == (r', res.1, res.2)
    ensures SameRing(res.0, r') && r'.lastBytes == res.0.lastBytes && done.output <= r'.output
  {
    var bare := done.(output := []);
    OutputShift(bare, done.output, n, spaces);
    OutputShift(bare, done0.output, n, spaces);
    ShiftedBack(done, bare);
    ShiftedBack(done0, bare);
    r' := Shifted(OutputLoop(bare, n, spaces).0, done.output);
  }

  lemma ShiftedBack(r: Receiver, bare: Receiver)
    requires bare == r.(output := [])
    ensures Shifted(bare, r.output) == r
  {
    assert r.output + [] == r.output;
  }

  /** The loop from the second packet on is that of the receiver that had put out nothing. */
  lemma SameRound(r1: Receiver, g: Receiver, n: nat, p: Packet, spaces: seq<nat>, spaces0: seq<nat>, g': Receiver)
      returns (r': Receiver)
    requires r1.Shaped() && HeldAt(r1, 0) && r1.pktsRecvd[PktIdx(r1.lastAcknoSent, r1.window)] == p && p.Data?
    requires g == r1.(output := g.output, lastBytes := 0) && OutputLoop(g, 0, spaces0) == (g', n, n < COUNTER)
    requires r1.lastBytes < |p.payload| <= r1.lastBytes + SpaceAt(spaces, 0) && |p.payload| <= SpaceAt(spaces0, 0)
    requires forall i: nat :: 1 <= i ==> SpaceAt(spaces, i) == SpaceAt(spaces0, i)
    ensures OutputLoop(r1, 0, spaces) == (r', n, n < COUNTER)
    ensures SameRing(g', r') && r'.lastBytes == g'.lastBytes && |r'.output| > |r1.output|
  {
    var done := FirstTurn(r1, p, spaces);
    var done0 := FirstTurn(g, p, spaces0);
    SameRooms(done, 1, spaces, spaces0);
    r' := LaterTurns(done0, done, 1, spaces0, (g', n, n < COUNTER));
  }

  /** Nothing is left of the first packet, and there is room: the end is announced. */
  lemma EmptyWrite(r1: Receiver, p: Packet, spaces: seq<nat>)
    requires r1.Shaped() && HeldAt(r1, 0) && r1.pktsRecvd[PktIdx(r1.lastAcknoSent, r1.window)] == p && p.Data?
    requires r1.lastBytes >= |p.payload| && SpaceAt(spaces, 0) > 0
    ensures OutputPkts(r1, spaces).eofOut && OutputPkts(r1, spaces).lastEof == r1.lastEof
  {
    var t := Turned(r1, 0, spaces);
    LoopIs(r1, 0, spaces, t);
    if !t.1 { LoopLeaves(t.0, 1, spaces); }
  }

  /** The room for one more round: just enough, or from an empty queue. */
  function RoundRoom(r: Receiver, n: nat, cs: seq<Chunk>): (spaces: seq<nat>)
    requires 1 <= r.lastAcknoSent && 1 <= n && r.lastAcknoSent - 1 + n <= |cs|
    ensures Queued(spaces, r.window)
  {
    var m := r.lastAcknoSent;
    if r.lastBytes < |cs[m - 1]| then
      RoomsQueued(Lens(cs, m, n, r.lastBytes), r.window);
      Rooms(Lens(cs, m, n, r.lastBytes))
    else Plenty(r.window)
  }

  /** With the others waiting, the first packet arrives again. */
  lemma PutOutAgain(r: Receiver, n: nat, cs: seq<Chunk>, p: Packet, spaces: seq<nat>)
    requires Unacked(r, n, cs) && IsPkt(p, r.lastAcknoSent, cs) && forall j: nat :: 0 < j < n ==> HeldAt(r, j)
    requires spaces == RoundRoom(r, n, cs)
    ensures var r' := ProcessDataPkt(r, p, spaces);
      if r.lastBytes < |p.payload| then Unacked(r', n, cs) && r'.lastBytes == 0 && |r'.output| > |r.output|
      else r'.eofOut && !r'.lastEof
  {
    var m := r.lastAcknoSent;
    var r1 := Refills(r, n, cs, p);
    assert PktIdx(p.seqno, r.window) == PktIdx(m, r.window);
    if r.lastBytes < |p.payload| {
      var spaces0 := Rooms(Lens(cs, m, n, 0));
      RoomsJustFit(cs, m, n, spaces0);
      RoundRooms(cs, m, n, r.lastBytes, spaces, spaces0);
      var g' := FullRound(Rewound(r1, cs), n, cs, spaces0);
      var r' := SameRound(r1, Rewound(r1, cs), n, p, spaces, spaces0, g');
      OutputPktsIs(r1, spaces, r', n, n < COUNTER);
      UnackedSame(g', r', n, cs);
    } else {
      EmptyWrite(r1, p, spaces);
    }
  }

  lemma RoundRooms(cs: seq<Chunk>, m: nat, n: nat, skip: nat, spaces: seq<nat>, spaces0: seq<nat>)
    requires 1 <= m && 1 <= n && m - 1 + n <= |cs| && skip <= |cs[m - 1]|
    requires spaces == Rooms(Lens(cs, m, n, skip)) && spaces0 == Rooms(Lens(cs, m, n, 0))
    ensures |cs[m - 1]| <= skip + SpaceAt(spaces, 0) && |cs[m - 1]| <= SpaceAt(spaces0, 0)
    ensures forall i: nat :: 1 <= i ==> SpaceAt(spaces, i) == SpaceAt(spaces0, i)
  {
    RoomsFit(Lens(cs, m, n, skip), 0);
    RoomsFit(Lens(cs, m, n, 0), 0);
    forall i: nat | 1 <= i
      ensures SpaceAt(spaces, i) == SpaceAt(spaces0, i)
    {
      RoomsLater(cs, m, n, skip, i);
    }
  }

  // ---------------------------------------------------------------------------------------------
  // Runs that go on
  // ---------------------------------------------------------------------------------------------

  /** After the run, r is the receiver of the side, and s the sender of the other one. */
  ghost predicate Stands(windowA: nat, windowB: nat, run: seq<Step>, atA: bool, r: Receiver, s: Sender)
  {
    && windowA > 0 && windowB > 0
    && var sys := Exec(windowA, windowB, run); (r, s) == if atA then (sys.a.rcv, sys.b.snd) else (sys.b.rcv, sys.a.snd)
  }

  /** The run goes on with arrivals at this side alone, and with room that its output queue can offer. */
  ghost predicate GoesOn(run: seq<Step>, run': seq<Step>, atA: bool, window: nat)
  {
    run <= run' && forall i :: |run| <= i < |run'| ==> Again(run'[i], atA, window)
  }

  predicate Again(s: Step, atA: bool, window: nat)
  {
    s.atA == atA && s.e.DataArrives? && Queued(s.e.spaces, window)
  }

  lemma GoesOnFurther(run: seq<Step>, run1: seq<Step>, run2: seq<Step>, atA: bool, window: nat)
    requires GoesOn(run, run1, atA, window) && GoesOn(run1, run2, atA, window)
    ensures GoesOn(run, run2, atA, window)
  {
    forall i | |run| <= i < |run2|
      ensures Again(run2[i], atA, window)
    {
      if i < |run1| { assert run2[i] == run1[i]; }
    }
  }

  /** Any packet of the stream can arrive. */
  lemma Arrives(windowA: nat, windowB: nat, run: seq<Step>, atA: bool, r: Receiver, s: Sender, n: nat, spaces: seq<nat>)
      returns (run': seq<Step>, p: Packet)
    requires Stands(windowA, windowB, run, atA, r, s) && 1 <= n <= |s.taken| && Queued(spaces, r.window)
    ensures r.Shaped() && IsPkt(p, n, s.taken) && GoesOn(run, run', atA, r.window)
    ensures Stands(windowA, windowB, run', atA, ProcessDataPkt(r, p, spaces), s)
  {
    RunSends(windowA, windowB, run);
    assert Sent(s, n);
    var k: nat :| k < |s.sent| && IsPkt(s.sent[k], n, s.taken);
    p := s.sent[k];
    run' := run + [Step(atA, DataArrives(k, spaces))];
    ExecAppend(windowA, windowB, run, Step(atA, DataArrives(k, spaces)));
  }

  /** The packets after the first one arrive again, from number i on. */
  lemma {:induction false} OthersAgain(windowA: nat, windowB: nat, run: seq<Step>, atA: bool, r: Receiver, s: Sender,
                                       n: nat, i: nat) returns (run': seq<Step>, r': Receiver)
    requires Stands(windowA, windowB, run, atA, r, s) && Unacked(r, n, s.taken) && 1 <= i <= n
    requires forall j: nat :: 0 < j < i ==> HeldAt(r, j)
    ensures GoesOn(run, run', atA, r.window) && Stands(windowA, windowB, run', atA, r', s)
    ensures Unacked(r', n, s.taken) && Kept(r, r')
    ensures forall j: nat :: 0 < j < n ==> HeldAt(r', j)
    decreases n - i
  {
    run', r' := run, r;
    if i < n {
      var run1, p := Arrives(windowA, windowB, run, atA, r, s, r.lastAcknoSent + i, []);
      WaitsAgain(r, n, s.taken, p, i, []);
      var r1 := ProcessDataPkt(r, p, []);
      HeldUpTo(r, r1, i);
      run', r' := OthersAgain(windowA, windowB, run1, atA, r1, s, n, i + 1);
      GoesOnFurther(run, run1, run', atA, r.window);
      KeptTwice(r, r1, r');
    }
  }

  lemma HeldUpTo(r: Receiver, r': Receiver, i: nat)
    requires r.Shaped() && r'.Shaped() && Kept(r, r') && HeldAt(r', i) && forall j: nat :: 0 < j < i ==> HeldAt(r, j)
    ensures forall j: nat :: 0 < j < i + 1 ==> HeldAt(r', j)
  {
    forall j: nat | 0 < j < i + 1
      ensures HeldAt(r', j)
    {
      assert j < i ==> HeldAt(r, j);
    }
  }

  lemma KeptTwice(r: Receiver, r1: Receiver, r2: Receiver)
    requires r.Shaped() && r1.Shaped() && r2.Shaped() && Kept(r, r1) && Kept(r1, r2)
    ensures Kept(r, r2)
  {
    forall j: nat | HeldAt(r, j)
      ensures HeldAt(r2, j)
    {
      assert HeldAt(r1, j);
    }
  }

  /** The promises to the two programs at the ends: what comes out is a prefix of what went in, and the end is announced
      only when an end mark was acted on. */
  ghost predicate Broken(r: Receiver, s: Sender)
  {
    !(r.output <= Concat(s.taken)) || (r.eofOut && !r.lastEof)
  }

  /** Round by round the same packets are put out, until more has come out than went in. */
  lemma {:induction false} Repeats(windowA: nat, windowB: nat, run: seq<Step>, atA: bool, r: Receiver, s: Sender,
                                   n: nat)
      returns (run': seq<Step>, r': Receiver)
    requires Stands(windowA, windowB, run, atA, r, s) && Unacked(r, n, s.taken)
    ensures GoesOn(run, run', atA, r.window) && Stands(windowA, windowB, run', atA, r', s) && Broken(r', s)
    decreases |Concat(s.taken)| + 1 - |r.output|
  {
    if |r.output| > |Concat(s.taken)| {
      run', r' := run, r;
    } else {
      var run1, r1 := OthersAgain(windowA, windowB, run, atA, r, s, n, 1);
      var spaces := RoundRoom(r1, n, s.taken);
      var run2, p := Arrives(windowA, windowB, run1, atA, r1, s, r1.lastAcknoSent, spaces);
      PutOutAgain(r1, n, s.taken, p, spaces);
      GoesOnFurther(run, run1, run2, atA, r.window);
      run', r' := run2, ProcessDataPkt(r1, p, spaces);
      if r1.lastBytes < |p.payload| {
        run', r' := Repeats(windowA, windowB, run2, atA, r', s, n);
        GoesOnFurther(run, run2, run', atA, r.window);
      }
    }
  }

  // ---------------------------------------------------------------------------------------------
  // The condition is exact for what can be seen from outside
  // ---------------------------------------------------------------------------------------------

  /** The step that goes wrong leaves packets unacknowledged that were put out. */
  lemma StepUnacks(h: Host, peer: Host, e: Event) returns (n: nat)
    requires h.Shaped() && DirInv(peer.snd, h.rcv) && LeavesUnacked(h, peer, e)
    ensures Unacked(Handle(h, peer, e).rcv, n, peer.snd.taken)
  {
    var taken := peer.snd.taken;
    if e.Drained? {
      if h.rcv.lastEof { NothingHeld(h.rcv, e.spaces, taken); }
      n := LostIsUnacked(h.rcv, e.spaces, taken);
    } else {
      var p := peer.snd.sent[e.k];
      AddPktKeeps(h.rcv, p, taken);
      n := LostIsUnacked(AddPktToRecvWindow(h.rcv, p), e.spaces, taken);
    }
  }

  /** A step that finishes packets without acknowledging them can be seen from outside: the run can go on so that bytes
      come out that did not go in there, or the end is announced though it was not reached. */
  lemma UnackedIsSeen(windowA: nat, windowB: nat, before: seq<Step>, s: Step) returns (run: seq<Step>)
    requires 0 < windowA < 0x8000_0000 && 0 < windowB < 0x8000_0000
    requires Smooth(windowA, windowB, before) && !Smooth(windowA, windowB, before + [s])
    ensures GoesOn(before + [s], run, s.atA, if s.atA then windowA else windowB) && !Safe(windowA, windowB, run)
    ensures var sys := Exec(windowA, windowB, run);
      if s.atA then Broken(sys.a.rcv, sys.b.snd) else Broken(sys.b.rcv, sys.a.snd)
  {
    assert (before + [s])[..|before|] == before;
    RunKeeps(windowA, windowB, before);
    var (h, peer) := At(Exec(windowA, windowB, before), s);
    var n := StepUnacks(h, peer, s.e);
    ExecAppend(windowA, windowB, before, s);
    var r := Handle(h, peer, s.e).rcv;
    var r';
    run, r' := Repeats(windowA, windowB, before + [s], s.atA, r, peer.snd, n);
  }

  lemma {:induction false} FirstUnacked(windowA: nat, windowB: nat, run: seq<Step>) returns (i: nat)
    requires windowA > 0 && windowB > 0 && !Smooth(windowA, windowB, run)
    ensures i < |run| && Smooth(windowA, windowB, run[..i]) && !Smooth(windowA, windowB, run[..i] + [run[i]])
    decreases |run|
  {
    var before := run[..|run| - 1];
    if Smooth(windowA, windowB, before) {
      i := |run| - 1;
      assert before + [run[i]] == run;
    } else {
      i := FirstUnacked(windowA, windowB, before);
      assert before[..i] == run[..i];
    }
  }

  /** All runs with windows of these sizes are safe if and only if none of them puts packets out without
      acknowledging them. */
  lemma SafeExactlyWhenSmooth(windowA: nat, windowB: nat)
    requires 0 < windowA < 0x8000_0000 && 0 < windowB < 0x8000_0000
    ensures (forall run: seq<Step> :: Safe(windowA, windowB, run)) <==>
            (forall run: seq<Step> :: Smooth(windowA, windowB, run))
  {
    if run: seq<Step> :| !Smooth(windowA, windowB, run) {
      var i := FirstUnacked(windowA, windowB, run);
      var run' := UnackedIsSeen(windowA, windowB, run[..i], run[i]);
    }
    forall run: seq<Step> | Smooth(windowA, windowB, run)
      ensures Safe(windowA, windowB, run)
    {
      SlidingWindowSafety(windowA, windowB, run);
    }
  }
}
