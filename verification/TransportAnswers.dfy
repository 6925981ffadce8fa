/** Every arriving packet is answered: what a lost packet or a lost acknowledgement needs to be made good, and that
    from every state everything read can still come through. */
module TransportAnswers {
  import opened Arith
  import opened Transport
  import opened TransportSafety
  import opened TransportWindows

  // ---------------------------------------------------------------------------------------------
  // The receiver, with room
  // ---------------------------------------------------------------------------------------------

  /** A loop that did not leave midway has ended at a slot that is free. */
  ghost predicate EndsFree(ackno: nat, res: (Receiver, nat, bool))
  {
    !res.2 && res.1 < COUNTER ==> res.0.Shaped() && !res.0.hasRecvd[PktIdx(ackno + res.1, res.0.window)]
  }

  lemma FreeTurn(loop: Loop, r: Receiver, n: nat, spaces: seq<nat>, taken: seq<Chunk>)
    returns (r1: Receiver, ends: bool)
    requires Loops(loop, spaces) && LoopInv(r, n, taken) && n <= COUNTER && (n > 0 ==> r.lastBytes == 0)
    ensures ends ==> EndsFree(r.lastAcknoSent, loop(r, n))
    ensures !ends ==> n < COUNTER && loop(r, n) == loop(r1, n + 1) && LoopInv(r1, n + 1, taken) && r1.lastBytes == 0
    ensures !ends ==> CountTrue(r1.hasRecvd) < CountTrue(r.hasRecvd) && r1.lastAcknoSent == r.lastAcknoSent
  {
    r1, ends := r, true;
    assert LoopsAt(loop, spaces, r, n);
    if n == COUNTER || !HeldAt(r, n) {
      LoopStops(r, n, spaces, taken);
    } else {
      r1, ends := TurnEnds(r, n, spaces, taken);
      assert LoopsAt(loop, spaces, r1, n + 1);
    }
  }

  lemma {:induction false} LoopEndsFree(loop: Loop, r: Receiver, n: nat, spaces: seq<nat>, taken: seq<Chunk>)
    requires Loops(loop, spaces) && LoopInv(r, n, taken) && n <= COUNTER && (n > 0 ==> r.lastBytes == 0)
    ensures EndsFree(r.lastAcknoSent, loop(r, n))
    decreases CountTrue(r.hasRecvd)
  {
    var r1, ends := FreeTurn(loop, r, n, spaces, taken);
    if !ends {
      LoopEndsFree(loop, r1, n + 1, spaces, taken);
    }
  }

  /** With room the loop goes on to the first packet that is missing. */
  lemma RoomyLoop(r: Receiver, spaces: seq<nat>, taken: seq<Chunk>) returns (r1: Receiver, n: nat)
    requires OpenInv(r, taken) && r.window < COUNTER && Roomy(spaces, r.window)
    ensures OutputLoop(r, 0, spaces) == (r1, n, false) && n < COUNTER && LoopKeeps(r, 0, (r1, n, false), taken)
    ensures !Flag(r1, r.lastAcknoSent + n) && (HeldAt(r, 0) ==> n > 0)
  {
    OutputLoopKeeps(r, spaces, taken);
    var res := OutputLoop(r, 0, spaces);
    r1, n := res.0, res.1;
    assert !res.2;
    var loop := LoopWithLoops(spaces);
    LoopEndsFree(loop, r, 0, spaces, taken);
    assert LoopsAt(loop, spaces, r, 0);
  }

  /** A turn of the loop, whatever the state. */
  lemma AnyTurn(r: Receiver, n: nat, spaces: seq<nat>) returns (r1: Receiver, ends: bool)
    requires r.Shaped()
    ensures r1.Shaped() && r1.lastSeqnoRecvd == r.lastSeqnoRecvd
    ensures ends ==> OutputLoop(r, n, spaces).0 == r1
    ensures !ends ==> CountTrue(r1.hasRecvd) < CountTrue(r.hasRecvd)
    ensures !ends ==> OutputLoop(r, n, spaces) == OutputLoop(r1, n + 1, spaces)
  {
    r1, ends := r, true;
    var idx := PktIdx(r.lastAcknoSent + n % COUNTER, r.window);
    if r.hasRecvd[idx] {
      var payload := PayloadOf(r.pktsRecvd[idx]);
      var k := BytesToOutput(SpaceAt(spaces, n), r.lastBytes, |payload|);
      r1 := OutputPkt(r, SpaceAt(spaces, n), k, payload);
      ends := r.lastBytes + k != |payload|;
      CountTrueCleared(r.hasRecvd, idx);
      r1 := if ends then r1.(lastBytes := r.lastBytes + k)
            else r1.(lastBytes := 0, hasRecvd := r.hasRecvd[idx := false]);
    }
  }

  lemma {:induction false} LoopSeqno(r: Receiver, n: nat, spaces: seq<nat>)
    requires r.Shaped()
    ensures OutputLoop(r, n, spaces).0.lastSeqnoRecvd == r.lastSeqnoRecvd
    decreases CountTrue(r.hasRecvd)
  {
    var r1, ends := AnyTurn(r, n, spaces);
    if !ends { LoopSeqno(r1, n + 1, spaces); }
  }

  lemma OutputSeqno(r: Receiver, spaces: seq<nat>)
    requires r.Shaped()
    ensures OutputPkts(r, spaces).lastSeqnoRecvd == r.lastSeqnoRecvd
  {
    LoopSeqno(r, 0, spaces);
  }

  lemma AfterRoom(r1: Receiver, n: nat, ackno: nat, taken: seq<Chunk>) returns (r': Receiver)
    requires LoopInv(r1, n, taken) && r1.lastBytes == 0 && !Flag(r1, ackno + n) && r1.lastAcknoSent == ackno
    ensures r' == if n > 0 then SendAck(r1, ackno + n) else r1
    ensures r'.Shaped() && !Flag(r', r'.lastAcknoSent) && r'.lastAcknoSent == ackno + n
    ensures n > 0 ==> r'.acks == r1.acks + [r'.lastAcknoSent]
  {
    r' := if n > 0 then SendAck(r1, ackno + n) else r1;
  }

  /** With room, what waits at the start of the window is put out and acknowledged with one acknowledgement; then the
      packet waited for is not held. */
  lemma RoomyOutput(r: Receiver, spaces: seq<nat>, taken: seq<Chunk>) returns (r': Receiver)
    requires OpenInv(r, taken) && r.window < COUNTER && Roomy(spaces, r.window)
    ensures r' == OutputPkts(r, spaces) && OpenInv(r', taken) && !Flag(r', r'.lastAcknoSent)
    ensures r'.lastEof == r.lastEof
    ensures HeldAt(r, 0) ==> r'.lastAcknoSent > r.lastAcknoSent && r'.acks == r.acks + [r'.lastAcknoSent]
  {
    RoomyFits(r, spaces);
    OutputPktsExact(r, spaces, taken);
    var r1, n := RoomyLoop(r, spaces, taken);
    OutputPktsIs(r, spaces, r1, n, false);
    r' := AfterRoom(r1, n, r.lastAcknoSent, taken);
  }

  // ---------------------------------------------------------------------------------------------
  // Two more invariants of runs
  // ---------------------------------------------------------------------------------------------

  /** The last packet is a short one and is not acknowledged. */
  predicate ShortWaits(s: Sender)
  {
    s.lastAcknoRecvd <= s.lastSeqnoSent && |s.taken| > 0 && 0 < |s.taken[|s.taken| - 1]| < MAX_PAYLOAD
  }

  /** A short packet holds back reading while it is not acknowledged, and no longer than something is not. */
  predicate Nagle(s: Sender)
  {
    && s.lastAcknoRecvd <= s.lastSeqnoSent + 1 && (s.partial ==> s.lastAcknoRecvd <= s.lastSeqnoSent)
    && (ShortWaits(s) ==> s.partial)
  }

  lemma {:induction false} ReadLoopNagle(s: Sender, ackno: nat, slots: nat, inputs: seq<Input>)
    requires Nagle(s) && s.window > 0 && |s.pktsSent| == s.window
    ensures Nagle(ReadLoop(s, ackno, slots, inputs))
    decreases slots
  {
    if slots > 0 && inputs != [] && inputs[0].Bytes? && inputs[0].b != [] {
      var s1 := SendNewDataPkt(s, ackno, inputs[0].b);
      var s2 := if |inputs[0].b| < MAX_PAYLOAD then s1.(partial := true) else s1;
      ReadLoopNagle(s2, ackno, slots - 1, inputs[1..]);
    }
  }

  lemma RelReadNagle(s: Sender, ackno: nat, inputs: seq<Input>)
    requires Nagle(s) && s.window > 0 && |s.pktsSent| == s.window
    ensures Nagle(RelRead(s, ackno, inputs))
  {
    if !s.readEof && !s.partial { ReadLoopNagle(s, ackno, AvailSendWindowSlots(s), inputs); }
  }

  lemma ProcessAckNagle(s: Sender, acked: nat, ackno: nat, inputs: seq<Input>)
    requires Nagle(s) && s.window > 0 && |s.pktsSent| == s.window
    ensures Nagle(ProcessAckPkt(s, acked, ackno, inputs))
  {
    if s.lastAcknoRecvd < acked <= s.lastSeqnoSent + 1 {
      RelReadNagle(s.(partial := s.partial && acked != s.lastSeqnoSent + 1, lastAcknoRecvd := acked), ackno, inputs);
    }
  }

  /** No packet beyond the stream has been recorded. */
  predicate WithinStream(s: Sender, r: Receiver)
  {
    r.lastSeqnoRecvd <= 1 || r.lastSeqnoRecvd <= |s.taken|
  }

  lemma DataWithin(s: Sender, r: Receiver, p: Packet, spaces: seq<nat>)
    requires r.Shaped() && WithinStream(s, r) && p.Data? && IsPkt(p, p.seqno, s.taken)
    ensures WithinStream(s, ProcessDataPkt(r, p, spaces))
  {
    OutputSeqno(AddPktToRecvWindow(r, p), spaces);
  }

  ghost predicate DirMore(s: Sender, r: Receiver)
  {
    Nagle(s) && WithinStream(s, r)
  }

  lemma HandleMore(h: Host, peer: Host, e: Event)
    requires h.Shaped() && DirInv(h.snd, peer.rcv) && DirInv(peer.snd, h.rcv) && !LeavesUnacked(h, peer, e)
    requires DirMore(h.snd, peer.rcv) && DirMore(peer.snd, h.rcv)
    ensures DirMore(Handle(h, peer, e).snd, peer.rcv) && DirMore(peer.snd, Handle(h, peer, e).rcv)
  {
    HandleKeeps(h, peer, e);
    match e
    case ReadReady(inputs) => RelReadNagle(h.snd, h.rcv.lastAcknoSent, inputs);
    case AckArrives(k, inputs) =>
      if k < |peer.rcv.acks| { ProcessAckNagle(h.snd, peer.rcv.acks[k], h.rcv.lastAcknoSent, inputs); }
    case DataArrives(k, spaces) =>
      if k < |peer.snd.sent| { DataWithin(peer.snd, h.rcv, peer.snd.sent[k], spaces); }
    case Drained(spaces) => OutputSeqno(h.rcv, spaces);
    case TimerFires(_) =>
  }

  ghost predicate SysMore(sys: System)
  {
    DirMore(sys.a.snd, sys.b.rcv) && DirMore(sys.b.snd, sys.a.rcv)
  }

  lemma {:induction false} RunMore(windowA: nat, windowB: nat, run: seq<Step>)
    requires 0 < windowA < 0x8000_0000 && 0 < windowB < 0x8000_0000 && Smooth(windowA, windowB, run)
    ensures SysMore(Exec(windowA, windowB, run))
    decreases |run|
  {
    if run != [] {
      var before, s := run[..|run| - 1], run[|run| - 1];
      RunMore(windowA, windowB, before);
      RunKeeps(windowA, windowB, before);
      var (h, peer) := At(Exec(windowA, windowB, before), s);
      HandleMore(h, peer, s.e);
    }
  }

  /** What is needed of a direction to make good a loss. */
  ghost predicate DirGood(s: Sender, r: Receiver)
  {
    DirInv(s, r) && EofComplete(s, r) && DirMore(s, r) && r.window < COUNTER
  }

  // ---------------------------------------------------------------------------------------------
  // One loss made good
  // ---------------------------------------------------------------------------------------------

  /** The timer makes the sender repeat the packet that its peer's acknowledgements ask for. */
  lemma TimerRepeats(s: Sender) returns (p: Packet)
    requires SenderInv(s) && s.lastAcknoRecvd <= s.lastSeqnoSent
    ensures RetransmitPkt(s, true) == s.(sent := s.sent + [p]) && IsPkt(p, s.lastAcknoRecvd, s.taken)
  {
    p := s.pktsSent[PktIdx(s.lastAcknoRecvd, s.window)];
  }

  /** The packet waited for arrives, with room: it is put out, or ends the stream, and is acknowledged. */
  lemma ExpectedAnswered(s: Sender, r: Receiver, p: Packet, spaces: seq<nat>)
    requires DirGood(s, r) && Roomy(spaces, r.window) && !Flag(r, r.lastAcknoSent)
    requires p.Data? && IsPkt(p, r.lastAcknoSent, s.taken)
    ensures var r' := ProcessDataPkt(r, p, spaces);
      r'.lastAcknoSent > r.lastAcknoSent && r'.acks == r.acks + [r'.lastAcknoSent]
  {
    assert !r.lastEof && Fresh(r, p);
    if p.payload != [] {
      AddPktKeeps(r, p, s.taken);
      var r' := RoomyOutput(AddPktToRecvWindow(r, p), spaces, s.taken);
    } else {
      assert r.lastAcknoSent == |s.taken|;
    }
  }

  /** The packet that the sender repeats is answered: with an acknowledgement of everything before the one waited for,
      which is news to the sender. */
  lemma RepeatAnswered(s: Sender, r: Receiver, p: Packet, spaces: seq<nat>)
    requires DirGood(s, r) && Roomy(spaces, r.window) && !Flag(r, r.lastAcknoSent)
    requires p.Data? && IsPkt(p, s.lastAcknoRecvd, s.taken)
    ensures var r' := ProcessDataPkt(r, p, spaces);
      && r'.lastAcknoSent > s.lastAcknoRecvd && r'.acks == r.acks + [r'.lastAcknoSent]
      && r'.lastAcknoSent >= r.lastAcknoSent
  {
    if s.lastAcknoRecvd == r.lastAcknoSent {
      ExpectedAnswered(s, r, p, spaces);
    }
  }

  /** News about the stream moves the sender on. */
  lemma NewsCounts(s: Sender, acked: nat, ackno: nat, inputs: seq<Input>)
    requires SenderInv(s) && s.lastAcknoRecvd < acked <= s.lastSeqnoSent + 1
    ensures ProcessAckPkt(s, acked, ackno, inputs).lastAcknoRecvd == acked
  {
    var s1 := s.(partial := s.partial && acked != s.lastSeqnoSent + 1, lastAcknoRecvd := acked);
    if !s1.readEof && !s1.partial { ReadLoopAckno(s1, ackno, AvailSendWindowSlots(s1), inputs); }
  }

  // ---------------------------------------------------------------------------------------------
  // Runs that go on
  // ---------------------------------------------------------------------------------------------

  /** A run of windows that the packet counter can count, without the two faults of larger windows. */
  predicate Sound(windowA: nat, windowB: nat, run: seq<Step>)
  {
    && 0 < windowA < COUNTER && 0 < windowB < COUNTER
    && Smooth(windowA, windowB, run) && Orderly(windowA, windowB, run)
  }

  /** One side and its peer. */
  function Sides(sys: System, atA: bool): (Host, Host)
  {
    if atA then (sys.a, sys.b) else (sys.b, sys.a)
  }

  /** One side and its peer after a run. */
  function After(windowA: nat, windowB: nat, run: seq<Step>, atA: bool): (r: (Host, Host))
    requires windowA > 0 && windowB > 0
    ensures r.0.Shaped() && r.1.Shaped() && r.1.rcv.window == if atA then windowB else windowA
  {
    Sides(Exec(windowA, windowB, run), atA)
  }

  lemma SoundIsGood(windowA: nat, windowB: nat, run: seq<Step>, atA: bool)
    requires Sound(windowA, windowB, run)
    ensures var (h, peer) := After(windowA, windowB, run, atA); DirGood(h.snd, peer.rcv) && DirInv(peer.snd, h.rcv)
  {
    RunKeeps(windowA, windowB, run);
    RunMore(windowA, windowB, run);
  }

  /** One more step at the given side. */
  lemma GoesOn(windowA: nat, windowB: nat, run: seq<Step>, atA: bool, e: Event) returns (more: seq<Step>)
    requires Sound(windowA, windowB, run)
    requires var (h, peer) := After(windowA, windowB, run, atA); !LeavesUnacked(h, peer, e) && !EndsEarly(h, peer, e)
    ensures more == run + [Step(atA, e)] && Sound(windowA, windowB, more)
    ensures var (h, peer) := After(windowA, windowB, run, atA);
      After(windowA, windowB, more, atA) == (Handle(h, peer, e), peer)
  {
    more := run + [Step(atA, e)];
    assert more[..|more| - 1] == run;
  }

  lemma OtherSide(windowA: nat, windowB: nat, run: seq<Step>, atA: bool)
    requires windowA > 0 && windowB > 0
    ensures After(windowA, windowB, run, !atA) ==
      (After(windowA, windowB, run, atA).1, After(windowA, windowB, run, atA).0)
  {
  }

  /** The peer's output drains, with room: then the packet it waits for is not held. */
  lemma DrainStep(windowA: nat, windowB: nat, run: seq<Step>, atA: bool, drain: seq<nat>) returns (more: seq<Step>)
    requires Sound(windowA, windowB, run) && Roomy(drain, if atA then windowB else windowA)
    ensures more == run + [Step(!atA, Drained(drain))] && Sound(windowA, windowB, more)
    ensures var (h, peer) := After(windowA, windowB, run, atA);
      var (h', peer') := After(windowA, windowB, more, atA);
      && h' == h && peer' == peer.(rcv := OutputPkts(peer.rcv, drain)) && !Flag(peer'.rcv, peer'.rcv.lastAcknoSent)
  {
    var (h, peer) := After(windowA, windowB, run, atA);
    OtherSide(windowA, windowB, run, atA);
    SoundIsGood(windowA, windowB, run, atA);
    RoomyFits(peer.rcv, drain);
    more := GoesOn(windowA, windowB, run, !atA, Drained(drain));
    OtherSide(windowA, windowB, more, atA);
    DrainFrees(h.snd, peer.rcv, drain);
  }

  lemma DrainFrees(s: Sender, r: Receiver, drain: seq<nat>)
    requires DirGood(s, r) && Roomy(drain, r.window)
    ensures var r' := OutputPkts(r, drain); !Flag(r', r'.lastAcknoSent)
  {
    if r.lastEof {
      DrainedSameEof(r, drain, s.taken);
    } else {
      var r' := RoomyOutput(r, drain, s.taken);
    }
  }

  /** The timer fires: the oldest packet without an acknowledgement is on its way again. */
  lemma TimerStep(windowA: nat, windowB: nat, run: seq<Step>, atA: bool) returns (more: seq<Step>, p: Packet)
    requires Sound(windowA, windowB, run)
    requires var s := After(windowA, windowB, run, atA).0.snd; s.lastAcknoRecvd <= s.lastSeqnoSent
    ensures more == run + [Step(atA, TimerFires(true))] && Sound(windowA, windowB, more)
    ensures var (h, peer) := After(windowA, windowB, run, atA);
      && After(windowA, windowB, more, atA) == (h.(snd := h.snd.(sent := h.snd.sent + [p])), peer)
      && IsPkt(p, h.snd.lastAcknoRecvd, h.snd.taken)
  {
    SoundIsGood(windowA, windowB, run, atA);
    more := GoesOn(windowA, windowB, run, atA, TimerFires(true));
    p := TimerRepeats(After(windowA, windowB, run, atA).0.snd);
  }

  /** The packet sent last arrives. */
  lemma DataStep(windowA: nat, windowB: nat, run: seq<Step>, atA: bool, k: nat, room: seq<nat>)
    returns (more: seq<Step>)
    requires Sound(windowA, windowB, run) && Roomy(room, if atA then windowB else windowA)
    requires var (h, peer) := After(windowA, windowB, run, atA);
      && k < |h.snd.sent| && IsPkt(h.snd.sent[k], h.snd.lastAcknoRecvd, h.snd.taken)
      && !Flag(peer.rcv, peer.rcv.lastAcknoSent)
    ensures more == run + [Step(!atA, DataArrives(k, room))] && Sound(windowA, windowB, more)
    ensures var (h, peer) := After(windowA, windowB, run, atA);
      var (h', peer') := After(windowA, windowB, more, atA);
      && h' == h && peer'.snd == peer.snd && peer'.rcv.lastAcknoSent > h.snd.lastAcknoRecvd
      && peer'.rcv.acks == peer.rcv.acks + [peer'.rcv.lastAcknoSent]
  {
    var (h, peer) := After(windowA, windowB, run, atA);
    OtherSide(windowA, windowB, run, atA);
    SoundIsGood(windowA, windowB, run, atA);
    RoomyFits(AddPktToRecvWindow(peer.rcv, h.snd.sent[k]), room);
    more := GoesOn(windowA, windowB, run, !atA, DataArrives(k, room));
    OtherSide(windowA, windowB, more, atA);
    RepeatAnswered(h.snd, peer.rcv, h.snd.sent[k], room);
  }

  /** The answer comes back. */
  lemma AckStep(windowA: nat, windowB: nat, run: seq<Step>, atA: bool, j: nat, inputs: seq<Input>)
    returns (more: seq<Step>)
    requires Sound(windowA, windowB, run)
    requires var (h, peer) := After(windowA, windowB, run, atA);
      j < |peer.rcv.acks| && h.snd.lastAcknoRecvd < peer.rcv.acks[j] == peer.rcv.lastAcknoSent
    ensures more == run + [Step(atA, AckArrives(j, inputs))] && Sound(windowA, windowB, more)
    ensures var (h, peer) := After(windowA, windowB, run, atA);
      var (h', peer') := After(windowA, windowB, more, atA);
      && h'.snd.lastAcknoRecvd == peer.rcv.acks[j] && peer' == peer && h'.rcv == h.rcv
      && (inputs == [] ==> h'.snd.taken == h.snd.taken && h'.snd.readEof == h.snd.readEof)
  {
    var (h, peer) := After(windowA, windowB, run, atA);
    SoundIsGood(windowA, windowB, run, atA);
    DirInvIsSafe(h.snd, peer.rcv);
    more := GoesOn(windowA, windowB, run, atA, AckArrives(j, inputs));
    NewsCounts(h.snd, peer.rcv.acks[j], h.rcv.lastAcknoSent, inputs);
    ProcessAckPktKeeps(h.snd, peer.rcv.acks[j], h.rcv.lastAcknoSent, inputs);
  }

  // ---------------------------------------------------------------------------------------------
  // No loss is final
  // ---------------------------------------------------------------------------------------------

  /** The peer drains, the timer fires, packet k of those sent arrives, and acknowledgement j comes back. */
  function Recovery(atA: bool, drain: seq<nat>, k: nat, room: seq<nat>, j: nat, inputs: seq<Input>): seq<Step>
  {
    [Step(!atA, Drained(drain)), Step(atA, TimerFires(true)), Step(!atA, DataArrives(k, room)),
     Step(atA, AckArrives(j, inputs))]
  }

  lemma FourSteps(run: seq<Step>, s1: Step, s2: Step, s3: Step, s4: Step)
    ensures run + [s1] + [s2] + [s3] + [s4] == run + [s1, s2, s3, s4]
  {
  }

  /** After every run in which a side has packets without an acknowledgement: the peer drains, the timer fires, the
      packet it sends arrives, and the acknowledgement that this arrival adds comes back. Then more is acknowledged. */
  lemma Answered(windowA: nat, windowB: nat, run: seq<Step>, atA: bool, drain: seq<nat>, k: nat, room: seq<nat>, j: nat,
                 inputs: seq<Input>)
    requires Sound(windowA, windowB, run)
    requires Roomy(drain, if atA then windowB else windowA) && Roomy(room, if atA then windowB else windowA)
    requires var (h, peer) := After(windowA, windowB, run, atA);
      && h.snd.lastAcknoRecvd <= h.snd.lastSeqnoSent && k == |h.snd.sent|
      && j == |OutputPkts(peer.rcv, drain).acks|
    ensures var more := run + Recovery(atA, drain, k, room, j, inputs);
      var (h, peer) := After(windowA, windowB, run, atA);
      var (h', peer') := After(windowA, windowB, more, atA);
      && Sound(windowA, windowB, more) && h'.snd.lastAcknoRecvd > h.snd.lastAcknoRecvd
      && |peer'.rcv.acks| == j + 1 && h'.rcv == h.rcv && peer'.snd == peer.snd
      && (inputs == [] ==> h'.snd.taken == h.snd.taken && h'.snd.readEof == h.snd.readEof)
  {
    var run1 := DrainStep(windowA, windowB, run, atA, drain);
    var run2, p := TimerStep(windowA, windowB, run1, atA);
    var run3 := DataStep(windowA, windowB, run2, atA, k, room);
    var run4 := AckStep(windowA, windowB, run3, atA, j, inputs);
    FourSteps(run, Step(!atA, Drained(drain)), Step(atA, TimerFires(true)), Step(!atA, DataArrives(k, room)),
              Step(atA, AckArrives(j, inputs)));
  }

  /** With windows of one packet, after any run at all: room for one packet is enough. */
  lemma StopAndWaitAnswered(run: seq<Step>, atA: bool, drain: seq<nat>, k: nat, room: seq<nat>, j: nat,
                            inputs: seq<Input>)
    requires SpaceAt(drain, 0) >= MAX_PAYLOAD && SpaceAt(room, 0) >= MAX_PAYLOAD
    requires var (h, peer) := After(1, 1, run, atA);
      && h.snd.lastAcknoRecvd <= h.snd.lastSeqnoSent && k == |h.snd.sent|
      && j == |OutputPkts(peer.rcv, drain).acks|
    ensures After(1, 1, run + Recovery(atA, drain, k, room, j, inputs), atA).0.snd.lastAcknoRecvd >
      After(1, 1, run, atA).0.snd.lastAcknoRecvd
  {
    StopAndWaitIsOrderly(run);
    Answered(1, 1, run, atA, drain, k, room, j, inputs);
  }

  /** Everything read at s is acknowledged and has been put out at r, its end included. */
  ghost predicate Through(s: Sender, r: Receiver)
  {
    && s.lastAcknoRecvd == s.lastSeqnoSent + 1 && r.output == Concat(s.taken)
    && r.eofOut == s.readEof && r.lastEof == s.readEof && !HasBufferedPkts(r)
  }

  /** What is acknowledged is delivered. */
  lemma AckedIsThrough(s: Sender, r: Receiver)
    requires DirGood(s, r) && s.lastAcknoRecvd == s.lastSeqnoSent + 1
    ensures Through(s, r)
  {
    DirInvIsSafe(s, r);
    assert s.taken[..|s.taken|] == s.taken;
    if s.readEof { AckedIsEnded(s, r); }
  }

  /** The direction from one side to the other goes on, and nothing else happens. */
  ghost predicate Continues(windowA: nat, windowB: nat, run: seq<Step>, more: seq<Step>, atA: bool)
    requires windowA > 0 && windowB > 0
  {
    var (h, peer) := After(windowA, windowB, run, atA);
    var (h', peer') := After(windowA, windowB, more, atA);
    && run <= more && Sound(windowA, windowB, more)
    && h'.rcv == h.rcv && peer'.snd == peer.snd && h'.snd.taken == h.snd.taken && h'.snd.readEof == h.snd.readEof
  }

  /** Loss after loss is made good, until everything read so far is acknowledged. */
  lemma {:induction false} CatchUp(windowA: nat, windowB: nat, run: seq<Step>, atA: bool, spaces: seq<nat>)
    returns (more: seq<Step>)
    requires Sound(windowA, windowB, run) && Roomy(spaces, if atA then windowB else windowA)
    ensures Continues(windowA, windowB, run, more, atA)
    ensures var s := After(windowA, windowB, more, atA).0.snd; s.lastAcknoRecvd == |s.taken| + 1
    decreases |After(windowA, windowB, run, atA).0.snd.taken| + 1 -
      After(windowA, windowB, run, atA).0.snd.lastAcknoRecvd
  {
    SoundIsGood(windowA, windowB, run, atA);
    var (h, peer) := After(windowA, windowB, run, atA);
    if h.snd.lastAcknoRecvd == h.snd.lastSeqnoSent + 1 {
      more := run;
    } else {
      var k, j := |h.snd.sent|, |OutputPkts(peer.rcv, spaces).acks|;
      Answered(windowA, windowB, run, atA, spaces, k, spaces, j, []);
      var run' := run + Recovery(atA, spaces, k, spaces, j, []);
      SoundIsGood(windowA, windowB, run', atA);
      more := CatchUp(windowA, windowB, run', atA, spaces);
    }
  }

  lemma CaughtUp(windowA: nat, windowB: nat, run: seq<Step>, atA: bool)
    requires Sound(windowA, windowB, run)
    requires var s := After(windowA, windowB, run, atA).0.snd; s.lastAcknoRecvd == |s.taken| + 1
    ensures var (h, peer) := After(windowA, windowB, run, atA); Through(h.snd, peer.rcv)
  {
    SoundIsGood(windowA, windowB, run, atA);
    var (h, peer) := After(windowA, windowB, run, atA);
    AckedIsThrough(h.snd, peer.rcv);
  }

  /** No loss is final: every such run can go on, without reading more, so that everything read on either side has come
      through to the other; and when both sides have read their end, both can close. */
  lemma CanComeThrough(windowA: nat, windowB: nat, run: seq<Step>)
    requires Sound(windowA, windowB, run)
    ensures exists more: seq<Step> ::
      run <= more && Sound(windowA, windowB, more) && AllThrough(windowA, windowB, run, more)
  {
    var spaces := seq(COUNTER, _ => MAX_PAYLOAD);
    var run1 := CatchUp(windowA, windowB, run, true, spaces);
    CaughtUp(windowA, windowB, run1, true);
    var run2 := CatchUp(windowA, windowB, run1, false, spaces);
    CaughtUp(windowA, windowB, run2, false);
    OtherSide(windowA, windowB, run1, true);
    OtherSide(windowA, windowB, run2, true);
  }

  /** Everything read has come through, in both directions. */
  ghost predicate AllThrough(windowA: nat, windowB: nat, run: seq<Step>, more: seq<Step>)
    requires windowA > 0 && windowB > 0
  {
    var sys, sys' := Exec(windowA, windowB, run), Exec(windowA, windowB, more);
    && sys'.a.snd.taken == sys.a.snd.taken && sys'.b.snd.taken == sys.b.snd.taken
    && Through(sys'.a.snd, sys'.b.rcv) && Through(sys'.b.snd, sys'.a.rcv)
    && (sys.a.snd.readEof && sys.b.snd.readEof ==> ShouldCloseConn(sys'.a) && ShouldCloseConn(sys'.b))
  }

  /** A short packet waits alone: after any such run, while the last packet is short and not acknowledged, nothing more
      is read. */
  lemma ShortHoldsBack(windowA: nat, windowB: nat, run: seq<Step>, atA: bool, inputs: seq<Input>)
    requires Sound(windowA, windowB, run) && ShortWaits(After(windowA, windowB, run, atA).0.snd)
    ensures After(windowA, windowB, run + [Step(atA, ReadReady(inputs))], atA) == After(windowA, windowB, run, atA)
  {
    SoundIsGood(windowA, windowB, run, atA);
    var more := GoesOn(windowA, windowB, run, atA, ReadReady(inputs));
  }

  /** A packet that is stale, beyond the window, held already or after the end, and an end mark that finds others
      waiting, change nothing and are answered with the acknowledgement sent last. */
  lemma NotStoredIsAnswered(windowA: nat, windowB: nat, run: seq<Step>, atA: bool, k: nat, spaces: seq<nat>)
    requires Sound(windowA, windowB, run)
    requires var (h, peer) := After(windowA, windowB, run, atA);
      && k < |peer.snd.sent|
      && (Fresh(h.rcv, peer.snd.sent[k]) ==> peer.snd.sent[k].payload == [] && HasBufferedPkts(h.rcv))
    ensures var (h, peer) := After(windowA, windowB, run, atA);
      var (h', peer') := After(windowA, windowB, run + [Step(atA, DataArrives(k, spaces))], atA);
      h'.rcv == h.rcv.(acks := h.rcv.acks + [h.rcv.lastAcknoSent]) && h'.snd == h.snd && peer' == peer
  {
    SoundIsGood(windowA, windowB, run, atA);
    OtherSide(windowA, windowB, run, atA);
    SoundIsGood(windowA, windowB, run, !atA);
    var more := GoesOn(windowA, windowB, run, atA, DataArrives(k, spaces));
  }

  /** And reading goes on: with everything acknowledged and the end not read, the next input is read and sent. */
  lemma ReadsOn(windowA: nat, windowB: nat, run: seq<Step>, atA: bool, b: Chunk)
    requires Sound(windowA, windowB, run) && b != []
    requires var s := After(windowA, windowB, run, atA).0.snd; s.lastAcknoRecvd == s.lastSeqnoSent + 1 && !s.readEof
    ensures var (h, peer) := After(windowA, windowB, run, atA);
      var (h', peer') := After(windowA, windowB, run + [Step(atA, ReadReady([Bytes(b)]))], atA);
      && h'.snd.taken == h.snd.taken + [b]
      && h'.snd.sent == h.snd.sent + [Data(h.rcv.lastAcknoSent, h'.snd.lastSeqnoSent, b)]
  {
    SoundIsGood(windowA, windowB, run, atA);
    var more := GoesOn(windowA, windowB, run, atA, ReadReady([Bytes(b)]));
    var (h, peer) := After(windowA, windowB, run, atA);
    ReadsNext(h.snd, h.rcv.lastAcknoSent, b);
  }

  lemma ReadsNext(s: Sender, ackno: nat, b: Chunk)
    requires SenderInv(s) && Nagle(s) && s.lastAcknoRecvd == s.lastSeqnoSent + 1 && !s.readEof && b != []
    ensures var s' := RelRead(s, ackno, [Bytes(b)]);
      s'.taken == s.taken + [b] && s'.sent == s.sent + [Data(ackno, s'.lastSeqnoSent, b)]
  {
    AvailExact(s);
    ReadsChunk(s, ackno, s.window, b);
  }

  lemma ReadsChunk(s: Sender, ackno: nat, slots: nat, b: Chunk)
    requires s.window > 0 && |s.pktsSent| == s.window && slots > 0 && b != []
    ensures var s' := ReadLoop(s, ackno, slots, [Bytes(b)]);
      s'.taken == s.taken + [b] && s'.sent == s.sent + [Data(ackno, s'.lastSeqnoSent, b)]
  {
    var s1 := SendNewDataPkt(s, ackno, b);
    var s2 := if |b| < MAX_PAYLOAD then s1.(partial := true) else s1;
    assert [Bytes(b)][1..] == [];
    assert ReadLoop(s2, ackno, slots - 1, []) == s2;
  }
}
