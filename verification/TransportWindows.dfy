/** How much room for output the transport needs, how large its windows may be, and what goes wrong beyond. */
module TransportWindows {
  import opened Arith
  import opened Transport
  import opened TransportSafety

  // ---------------------------------------------------------------------------------------------
  // Room for output
  // ---------------------------------------------------------------------------------------------

  /** At every look that a call of output_pkts can make there is room for a whole packet. */
  predicate Roomy(spaces: seq<nat>, window: nat)
  {
    window <= |spaces| && forall i: nat :: i < window ==> spaces[i] >= MAX_PAYLOAD
  }

  /** From one look to the next the room shrinks by no more than the packet put out between them. */
  predicate Shrinks(spaces: seq<nat>)
  {
    forall i: nat :: i + 1 < |spaces| ==> spaces[i + 1] + MAX_PAYLOAD >= spaces[i]
  }

  /** Room for a window of packets at the first look is enough. */
  lemma {:induction false} FirstLookDecides(spaces: seq<nat>, window: nat, i: nat)
    requires Shrinks(spaces) && i < window <= |spaces| && spaces[0] >= MAX_PAYLOAD * window
    ensures spaces[i] >= MAX_PAYLOAD * (window - i)
    decreases i
  {
    if i > 0 { FirstLookDecides(spaces, window, i - 1); }
  }

  lemma EnoughRoom(spaces: seq<nat>, window: nat)
    requires Shrinks(spaces) && 0 < window <= |spaces| && spaces[0] >= MAX_PAYLOAD * window
    ensures Roomy(spaces, window)
  {
    forall i: nat | i < window
      ensures spaces[i] >= MAX_PAYLOAD
    {
      FirstLookDecides(spaces, window, i);
    }
  }

  lemma RoomyFits(r: Receiver, spaces: seq<nat>)
    requires r.Shaped() && Roomy(spaces, r.window)
    ensures !MidStop(r, spaces) && (r.window < COUNTER ==> !LosesAck(r, spaces))
  {
  }

  /** The room that a step offers, whatever the state it meets. */
  predicate StepRoomy(windowA: nat, windowB: nat, s: Step)
  {
    match s.e
    case DataArrives(_, spaces) => Roomy(spaces, if s.atA then windowA else windowB)
    case Drained(spaces) => Roomy(spaces, if s.atA then windowA else windowB)
    case _ => true
  }

  predicate RunRoomy(windowA: nat, windowB: nat, run: seq<Step>)
  {
    forall i :: 0 <= i < |run| ==> StepRoomy(windowA, windowB, run[i])
  }

  lemma StepRoomyAcks(windowA: nat, windowB: nat, sys: System, s: Step)
    requires sys.a.Shaped() && sys.b.Shaped() && sys.a.rcv.window == windowA && sys.b.rcv.window == windowB
    requires windowA < COUNTER && windowB < COUNTER && StepRoomy(windowA, windowB, s)
    ensures !LeavesUnacked(At(sys, s).0, At(sys, s).1, s.e)
  {
    var (h, peer) := At(sys, s);
    match s.e
    case Drained(spaces) => RoomyFits(h.rcv, spaces);
    case DataArrives(k, spaces) =>
      if k < |peer.snd.sent| && peer.snd.sent[k].Data? {
        RoomyFits(AddPktToRecvWindow(h.rcv, peer.snd.sent[k]), spaces);
      }
    case _ =>
  }

  lemma {:induction false} RoomySmooth(windowA: nat, windowB: nat, run: seq<Step>)
    requires 0 < windowA < COUNTER && 0 < windowB < COUNTER && RunRoomy(windowA, windowB, run)
    ensures Smooth(windowA, windowB, run)
    decreases |run|
  {
    if run != [] {
      var before := run[..|run| - 1];
      RoomySmooth(windowA, windowB, before);
      StepRoomyAcks(windowA, windowB, Exec(windowA, windowB, before), run[|run| - 1]);
    }
  }

  /** Safety of both directions. */
  ghost predicate Safe(windowA: nat, windowB: nat, run: seq<Step>)
    requires windowA > 0 && windowB > 0
  {
    var sys := Exec(windowA, windowB, run);
    DirSafe(sys.a.snd, sys.b.rcv) && DirSafe(sys.b.snd, sys.a.rcv)
  }

  /** Windows that the packet counter can count, and room for a packet at every look: every run is safe. */
  lemma RoomySafety(windowA: nat, windowB: nat, run: seq<Step>)
    requires 0 < windowA < COUNTER && 0 < windowB < COUNTER && RunRoomy(windowA, windowB, run)
    ensures Safe(windowA, windowB, run)
  {
    RoomySmooth(windowA, windowB, run);
    SlidingWindowSafety(windowA, windowB, run);
  }

  // ---------------------------------------------------------------------------------------------
  // A full window, its first packet last
  // ---------------------------------------------------------------------------------------------

  function Inputs(cs: seq<Chunk>): (inputs: seq<Input>)
    ensures |inputs| == |cs|
  {
    seq(|cs|, i requires 0 <= i < |cs| => Bytes(cs[i]))
  }

  function Pkts(first: nat, cs: seq<Chunk>): (ps: seq<Packet>)
    ensures |ps| == |cs|
  {
    seq(|cs|, i requires 0 <= i < |cs| => Data(1, first + i, cs[i]))
  }

  predicate NoneEmpty(cs: seq<Chunk>)
  {
    forall i :: 0 <= i < |cs| ==> |cs[i]| > 0
  }

  lemma ReadsOne(s: Sender, slots: nat, cs: seq<Chunk>) returns (s': Sender)
    requires s.window > 0 && |s.pktsSent| == s.window && 0 < |cs| <= slots && |cs[0]| > 0
    ensures s'.window == s.window && |s'.pktsSent| == s'.window && s'.lastSeqnoSent == s.lastSeqnoSent + 1
    ensures s'.taken == s.taken + [cs[0]] && s'.sent == s.sent + [Data(1, s.lastSeqnoSent + 1, cs[0])]
    ensures ReadLoop(s, 1, slots, Inputs(cs)) == ReadLoop(s', 1, slots - 1, Inputs(cs[1..]))
  {
    var s1 := SendNewDataPkt(s, 1, cs[0]);
    s' := if |cs[0]| < MAX_PAYLOAD then s1.(partial := true) else s1;
    assert Inputs(cs)[1..] == Inputs(cs[1..]);
  }

  lemma PktsCons(first: nat, cs: seq<Chunk>)
    requires cs != []
    ensures [cs[0]] + cs[1..] == cs && Pkts(first, cs) == [Data(1, first, cs[0])] + Pkts(first + 1, cs[1..])
  {
  }

  lemma OneMore<T>(s: seq<T>, x: T, rest: seq<T>, all: seq<T>)
    requires all == [x] + rest
    ensures s + [x] + rest == s + all
  {
  }

  /** With slots for all, all chunks are read and sent. */
  lemma {:induction false} ReadsAll(s: Sender, slots: nat, cs: seq<Chunk>)
    requires s.window > 0 && |s.pktsSent| == s.window && |cs| <= slots && NoneEmpty(cs)
    ensures var s' := ReadLoop(s, 1, slots, Inputs(cs));
      s'.taken == s.taken + cs && s'.sent == s.sent + Pkts(s.lastSeqnoSent + 1, cs)
    decreases |cs|
  {
    if cs != [] {
      var s1 := ReadsOne(s, slots, cs);
      ReadsAll(s1, slots - 1, cs[1..]);
      PktsCons(s.lastSeqnoSent + 1, cs);
      OneMore(s.taken, cs[0], cs[1..], cs);
      OneMore(s.sent, Data(1, s.lastSeqnoSent + 1, cs[0]), Pkts(s.lastSeqnoSent + 2, cs[1..]),
              Pkts(s.lastSeqnoSent + 1, cs));
    }
  }

  /** The chunks are read at A, and then their packets arrive at B from the second one on, up to packet j + 1. */
  function ArrivalRun(cs: seq<Chunk>, spaces: seq<nat>, j: nat): (run: seq<Step>)
    ensures |run| == j + 1
  {
    if j == 0 then [Step(true, ReadReady(Inputs(cs)))]
    else ArrivalRun(cs, spaces, j - 1) + [Step(false, DataArrives(j, spaces))]
  }

  lemma {:induction false} ArrivalRunRoomy(window: nat, cs: seq<Chunk>, spaces: seq<nat>, j: nat)
    requires Roomy(spaces, window)
    ensures RunRoomy(window, window, ArrivalRun(cs, spaces, j))
  {
    if j > 0 { ArrivalRunRoomy(window, cs, spaces, j - 1); }
  }

  /** Packets 2 to j + 1 wait for the first one. */
  ghost predicate Waiting(r: Receiver, window: nat, cs: seq<Chunk>, j: nat)
  {
    && r.Shaped() && r.window == window && j < |cs| <= window
    && r.lastAcknoSent == 1 && r.lastBytes == 0 && !r.lastEof
    && (forall i :: 0 <= i < window ==> (r.hasRecvd[i] <==> 1 <= i <= j))
    && (forall i :: 1 <= i <= j ==> r.pktsRecvd[i] == Data(1, i + 1, cs[i]))
  }

  /** In the first window the slots are in order. */
  lemma FirstWindow(n: nat, window: nat)
    requires 1 <= n <= window
    ensures PktIdx(n, window) == n - 1
  {
    DivModUnique(0, window, n - 1);
  }

  /** Nothing is put out while the first packet is missing. */
  lemma NothingOut(r: Receiver, spaces: seq<nat>)
    requires r.Shaped() && !HeldAt(r, 0)
    ensures OutputPkts(r, spaces) == r && !LosesAck(r, spaces)
  {
    LoopNotHeld(r, 0, spaces);
    assert !Fits(r, spaces, 0);
  }

  /** One more packet of the window arrives, but not the first. */
  lemma OneWaits(r: Receiver, window: nat, cs: seq<Chunk>, j: nat, spaces: seq<nat>)
    requires Waiting(r, window, cs, j) && j + 1 < |cs| && NoneEmpty(cs)
    ensures var p := Data(1, j + 2, cs[j + 1]);
      Waiting(ProcessDataPkt(r, p, spaces), window, cs, j + 1) && !LosesAck(AddPktToRecvWindow(r, p), spaces)
  {
    var p := Data(1, j + 2, cs[j + 1]);
    FirstWindow(j + 2, window);
    FirstWindow(1, window);
    var r1 := AddPktToRecvWindow(r, p);
    assert |p.payload| > 0 && !HeldAt(r1, 0);
    NothingOut(r1, spaces);
  }

  lemma ReadFirst(window: nat, cs: seq<Chunk>)
    requires 0 < |cs| <= window < 0x8000_0000 && NoneEmpty(cs)
    ensures var sys := Exec(window, window, ArrivalRun(cs, [], 0));
      sys.a.snd.taken == cs && sys.a.snd.sent == Pkts(1, cs) && sys.b == InitHost(window)
  {
    var s := Step(true, ReadReady(Inputs(cs)));
    assert [s][..0] == [];
    assert Exec(window, window, [s]) == Next(Exec(window, window, []), s);
    assert AvailSendWindowSlots(InitSender(window)) == window;
    ReadsAll(InitSender(window), window, cs);
  }

  lemma {:induction false} OthersWait(window: nat, cs: seq<Chunk>, spaces: seq<nat>, j: nat)
    requires j < |cs| <= window < 0x8000_0000 && NoneEmpty(cs)
    ensures var sys := Exec(window, window, ArrivalRun(cs, spaces, j));
      && sys.a.snd.taken == cs && sys.a.snd.sent == Pkts(1, cs) && Waiting(sys.b.rcv, window, cs, j)
      && Smooth(window, window, ArrivalRun(cs, spaces, j))
    decreases j
  {
    if j == 0 {
      ReadFirst(window, cs);
      assert ArrivalRun(cs, spaces, 0)[..0] == [];
    } else {
      var before, s := ArrivalRun(cs, spaces, j - 1), Step(false, DataArrives(j, spaces));
      OthersWait(window, cs, spaces, j - 1);
      assert ArrivalRun(cs, spaces, j)[..j] == before;
      var sys := Exec(window, window, before);
      assert sys.a.snd.sent[j] == Data(1, j + 1, cs[j]);
      OneWaits(sys.b.rcv, window, cs, j - 1, spaces);
      DataAtB(sys, j, spaces);
    }
  }

  /** The first packet arrives: now the whole window is held. */
  lemma FirstArrives(r: Receiver, window: nat, cs: seq<Chunk>) returns (r1: Receiver)
    requires cs != [] && Waiting(r, window, cs, |cs| - 1) && ReceiverInv(r, cs) && NoneEmpty(cs)
    ensures Fresh(r, FirstOf(cs)) && r1 == AddPktToRecvWindow(r, FirstOf(cs)) && OpenInv(r1, cs)
    ensures r1.lastAcknoSent == 1 && r1.lastBytes == 0 && r1.window == window && AllHeld(r1, cs)
  {
    FirstWindow(1, window);
    assert |cs[0]| > 0;
    r1 := AddPktToRecvWindow(r, FirstOf(cs));
    AddPktKeeps(r, FirstOf(cs), cs);
    forall i: nat | i < |cs|
      ensures HeldAt(r1, i) && LeftAt(r1, i) == |cs[i]|
    {
      FirstWindow(i + 1, window);
    }
  }

  function FirstOf(cs: seq<Chunk>): Packet
    requires cs != []
  {
    Data(1, 1, cs[0])
  }

  ghost predicate AllHeld(r: Receiver, cs: seq<Chunk>)
    requires r.Shaped()
  {
    forall i: nat :: i < |cs| ==> HeldAt(r, i) && LeftAt(r, i) == |cs[i]|
  }

  /** The first packet once more, after it was put out and not acknowledged: it is put out again. */
  lemma FirstAgain(r: Receiver, n: nat, cs: seq<Chunk>, again: seq<nat>)
    requires LoopInv(r, n, cs) && n >= 2 && !r.lastEof && r.lastAcknoSent == 1 && cs != []
    requires r.lastBytes < |cs[0]| <= SpaceAt(again, 0)
    ensures ProcessDataPkt(r, FirstOf(cs), again).output == r.output + cs[0][r.lastBytes..]
  {
    assert !Flag(r, 1) && !Flag(r, 2);
    var r1 := AddPktToRecvWindow(r, FirstOf(cs));
    PktIdxDistinct(1, 2, r.window);
    OutputTurn(r1, 0, again, cs[0], |cs[0]| - r.lastBytes);
    var r2 := Finished(r1, cs[0], PktIdx(1, r.window));
    LoopNotHeld(r2, 1, again);
    OutputPktsIs(r1, again, r2, 1, false);
  }

  /** After the packets waiting at B: the first one, with the given room, and the first one again. */
  function TwiceRun(cs: seq<Chunk>, spaces: seq<nat>, last: seq<nat>, again: seq<nat>): seq<Step>
    requires |cs| > 0
  {
    ArrivalRun(cs, spaces, |cs| - 1) + [Step(false, DataArrives(0, last))] + [Step(false, DataArrives(0, again))]
  }

  /** What happens when the first arrival ends without an acknowledgement. */
  lemma TwiceOut(sys: System, cs: seq<Chunk>, last: seq<nat>, again: seq<nat>,
                 r1: Receiver, r: Receiver, n: nat, stopped: bool)
    requires sys.a.Shaped() && sys.b.Shaped() && cs != [] && sys.a.snd.sent == Pkts(1, cs)
    requires Fresh(sys.b.rcv, FirstOf(cs)) && |cs[0]| > 0 && r1 == AddPktToRecvWindow(sys.b.rcv, FirstOf(cs))
    requires OutputLoop(r1, 0, last) == (r, n, stopped) && LoopKeeps(r1, 0, (r, n, stopped), cs)
    requires r1.lastAcknoSent == 1 && !r1.lastEof && n >= 2 && (stopped || n == COUNTER)
    requires r.lastBytes < |cs[0]| <= SpaceAt(again, 0)
    ensures var sys' := Next(Next(sys, Step(false, DataArrives(0, last))), Step(false, DataArrives(0, again)));
      sys'.a == sys.a && sys'.b.rcv.output == r.output + cs[0][r.lastBytes..]
  {
    NoAckAfter(sys.b.rcv, cs, last, r1, r, n, stopped);
    DataAtB(sys, 0, last);
    OnceMore(Next(sys, Step(false, DataArrives(0, last))), cs, again, r, n);
  }

  lemma NoAckAfter(r0: Receiver, cs: seq<Chunk>, last: seq<nat>, r1: Receiver, r: Receiver, n: nat, stopped: bool)
    requires r0.Shaped() && cs != [] && |cs[0]| > 0 && Fresh(r0, FirstOf(cs))
    requires r1 == AddPktToRecvWindow(r0, FirstOf(cs)) && OutputLoop(r1, 0, last) == (r, n, stopped) && n <= COUNTER
    requires stopped || n == COUNTER
    ensures ProcessDataPkt(r0, FirstOf(cs), last) == r
  {
    OutputPktsIs(r1, last, r, n, stopped);
  }

  lemma OnceMore(sys: System, cs: seq<Chunk>, again: seq<nat>, r: Receiver, n: nat)
    requires sys.a.Shaped() && sys.b.Shaped() && cs != [] && sys.a.snd.sent == Pkts(1, cs) && sys.b.rcv == r
    requires LoopInv(r, n, cs) && n >= 2 && !r.lastEof && r.lastAcknoSent == 1
      && r.lastBytes < |cs[0]| <= SpaceAt(again, 0)
    ensures var sys' := Next(sys, Step(false, DataArrives(0, again)));
      sys'.a == sys.a && sys'.b.rcv.output == r.output + cs[0][r.lastBytes..]
  {
    FirstAgain(r, n, cs, again);
    DataAtB(sys, 0, again);
  }

  /** All packets but the first have arrived; now it does. */
  lemma LastArrival(window: nat, cs: seq<Chunk>, spaces: seq<nat>) returns (sys: System, r1: Receiver)
    requires 2 <= |cs| <= window < 0x8000_0000 && NoneEmpty(cs)
    ensures sys == Exec(window, window, ArrivalRun(cs, spaces, |cs| - 1))
    ensures sys.a.Shaped() && sys.b.Shaped() && sys.a.snd.taken == cs && sys.a.snd.sent == Pkts(1, cs)
    ensures Fresh(sys.b.rcv, FirstOf(cs)) && r1 == AddPktToRecvWindow(sys.b.rcv, FirstOf(cs)) && OpenInv(r1, cs)
    ensures r1.lastAcknoSent == 1 && r1.lastBytes == 0 && r1.window == window && AllHeld(r1, cs)
  {
    var before := ArrivalRun(cs, spaces, |cs| - 1);
    OthersWait(window, cs, spaces, |cs| - 1);
    RunKeeps(window, window, before);
    sys := Exec(window, window, before);
    r1 := FirstArrives(sys.b.rcv, window, cs);
  }

  /** The two last steps of the run. */
  lemma TwiceRunEnds(window: nat, cs: seq<Chunk>, spaces: seq<nat>, last: seq<nat>, again: seq<nat>, sys: System)
    requires 0 < |cs| && 0 < window && sys == Exec(window, window, ArrivalRun(cs, spaces, |cs| - 1))
    ensures Exec(window, window, TwiceRun(cs, spaces, last, again)) ==
            Next(Next(sys, Step(false, DataArrives(0, last))), Step(false, DataArrives(0, again)))
  {
    var before := ArrivalRun(cs, spaces, |cs| - 1);
    var s1, s2 := Step(false, DataArrives(0, last)), Step(false, DataArrives(0, again));
    ExecAppend(window, window, before, s1);
    ExecAppend(window, window, before + [s1], s2);
  }

  /** The run with the first packet twice. */
  lemma TwiceRunOut(window: nat, cs: seq<Chunk>, spaces: seq<nat>, last: seq<nat>, again: seq<nat>)
      returns (sys: System, r1: Receiver, r: Receiver, n: nat, stopped: bool)
    requires 2 <= |cs| <= window < 0x8000_0000 && NoneEmpty(cs) && SpaceAt(again, 0) >= MAX_PAYLOAD
    ensures r1.Shaped() && r1.window == window && AllHeld(r1, cs) && r1.lastBytes == 0 && r1.lastAcknoSent == 1
    ensures LoopResult(r1, 0, last, (r, n, stopped), cs)
    ensures sys == Exec(window, window, TwiceRun(cs, spaces, last, again))
    ensures n >= 2 && (stopped || n == COUNTER) && r.lastBytes < |cs[0]| ==>
              sys.a.snd.taken == cs && sys.b.rcv.output == r.output + cs[0][r.lastBytes..]
  {
    var sys0;
    sys0, r1 := LastArrival(window, cs, spaces);
    r, n, stopped := LoopFrom(r1, last, cs);
    TwiceRunEnds(window, cs, spaces, last, again, sys0);
    sys := Exec(window, window, TwiceRun(cs, spaces, last, again));
    if n >= 2 && (stopped || n == COUNTER) && r.lastBytes < |cs[0]| {
      TwiceOut(sys0, cs, last, again, r1, r, n, stopped);
    }
  }

  lemma LoopFrom(r1: Receiver, spaces: seq<nat>, cs: seq<Chunk>) returns (r: Receiver, n: nat, stopped: bool)
    requires LoopInv(r1, 0, cs)
    ensures OutputLoop(r1, 0, spaces) == (r, n, stopped) && LoopResult(r1, 0, spaces, (r, n, stopped), cs)
  {
    OutputLoopKeeps(r1, spaces, cs);
    var res := OutputLoop(r1, 0, spaces);
    r, n, stopped := res.0, res.1, res.2;
  }

  // ---------------------------------------------------------------------------------------------
  // Seventeen packets: more than the output queue holds
  // ---------------------------------------------------------------------------------------------

  const BUFSIZE: nat := 8192

  /** What conn_bufspace answers while the other end of the output does not read and full packets queue up. */
  function Filling(n: nat): (spaces: seq<nat>)
    requires n <= 17
    ensures |spaces| == n
  {
    seq(n, i requires 0 <= i < n => BUFSIZE - MAX_PAYLOAD * i)
  }

  /** A stream of n packets of one kind. */
  function Same(c: Chunk, n: nat): (cs: seq<Chunk>)
    ensures |cs| == n && forall i :: 0 <= i < n ==> cs[i] == c
  {
    if n == 0 then [] else Same(c, n - 1) + [c]
  }

  /** Sixteen full packets of zeros, and one of ones. */
  function Seventeen(): (cs: seq<Chunk>)
    ensures |cs| == 17 && NoneEmpty(cs) && forall i :: 0 <= i < 17 ==> |cs[i]| == MAX_PAYLOAD
  {
    Same(Blank(), 16) + [Ones()]
  }

  function Ones(): (c: Chunk)
    ensures |c| == MAX_PAYLOAD && c[192] == 1
  {
    seq(MAX_PAYLOAD, _ => 1)
  }

  function Blank(): (c: Chunk)
    ensures |c| == MAX_PAYLOAD && c[192] == 0
  {
    seq(MAX_PAYLOAD, _ => 0)
  }

  /** Packet i fits exactly when it is not the last one. */
  lemma SeventeenFits(r1: Receiver, i: nat)
    requires r1.Shaped() && AllHeld(r1, Seventeen()) && i < 17
    ensures HeldAt(r1, i) && (Fits(r1, Filling(17), i) <==> i < 16) && SpaceAt(Filling(17), 16) == 192
  {
    assert LeftAt(r1, i) == |Seventeen()[i]|;
  }

  /** Sixteen packets fit, and 192 bytes of the next one. */
  lemma SixteenFit(r1: Receiver, res: (Receiver, nat, bool), cs: seq<Chunk>)
    requires cs == Seventeen() && r1.Shaped() && r1.window == 17 && AllHeld(r1, cs) && r1.lastBytes == 0
      && r1.lastAcknoSent == 1
    requires LoopResult(r1, 0, Filling(17), res, cs)
    ensures res.1 == 16 && res.2 && res.0.lastBytes == 192
    ensures res.0.output == Concat(cs[..16]) + Ones()[..192]
  {
    SeventeenFits(r1, 16);
    assert res.1 <= 16;
    SeventeenFits(r1, res.1);
    OutputUpTo(res.0, 16, cs);
  }

  /** What has been put out in the first window. */
  lemma OutputUpTo(r: Receiver, n: nat, cs: seq<Chunk>)
    requires LoopInv(r, n, cs) && r.lastAcknoSent == 1
    ensures n <= |cs| && (r.lastBytes > 0 ==> n < |cs| && r.lastBytes < |cs[n]|)
    ensures r.output == Concat(cs[..n]) + if r.lastBytes == 0 then [] else cs[n][..r.lastBytes]
  {
  }

  /** Byte 192 of the last packet is not the one put out. */
  lemma OtherByte(front: seq<byte>, out: seq<byte>, all: seq<byte>)
    requires out == front + Ones()[..192] + Blank()[192..] && all == front + Ones()
    ensures !(out <= all)
  {
    var k := |front| + 192;
    assert |front + Ones()[..192]| == k;
    assert out[k] == Blank()[192..][0] == 0 && all[k] == Ones()[192];
  }

  lemma MidStopRun() returns (run: seq<Step>)
    ensures var sys := Exec(17, 17, run); !(sys.b.rcv.output <= Concat(sys.a.snd.taken))
  {
    var cs := Seventeen();
    run := TwiceRun(cs, [], Filling(17), [BUFSIZE]);
    var sys, r1, r, n, stopped := TwiceRunOut(17, cs, [], Filling(17), [BUFSIZE]);
    SixteenFit(r1, (r, n, stopped), cs);
    ConcatNext(cs, 16);
    assert cs[..17] == cs;
    OtherByte(Concat(cs[..16]), sys.b.rcv.output, Concat(cs));
  }

  /** A window of seventeen full packets from an empty output queue: the bytes put out stop being a prefix. */
  lemma MidStopExample()
    ensures exists run: seq<Step> ::
      var sys := Exec(17, 17, run);
      !Smooth(17, 17, run) && !(sys.b.rcv.output <= Concat(sys.a.snd.taken))
  {
    var run := MidStopRun();
    if Smooth(17, 17, run) {
      SlidingWindowSafety(17, 17, run);
    }
  }

  /** Up to sixteen packets the queue, empty at the first look, has room for a window. */
  lemma SixteenAreSafe(spaces: seq<nat>, window: nat)
    requires 0 < window <= 16 && window <= |spaces| && Shrinks(spaces) && spaces[0] == BUFSIZE
    ensures Roomy(spaces, window)
  {
    EnoughRoom(spaces, window);
  }

  // ---------------------------------------------------------------------------------------------
  // Windows that the packet counter cannot count
  // ---------------------------------------------------------------------------------------------

  /** What conn_bufspace answers while the other end reads what it is given: the queue stays empty. */
  function Plenty(n: nat): (spaces: seq<nat>)
    ensures |spaces| == n && forall i :: 0 <= i < n ==> spaces[i] == BUFSIZE
  {
    seq(n, _ => BUFSIZE)
  }

  /** With room for all, the counter comes round: everything is put out and nothing acknowledged. */
  lemma ComesRound(r1: Receiver, window: nat, res: (Receiver, nat, bool), cs: seq<Chunk>)
    requires COUNTER == |cs| <= window && r1.Shaped() && r1.window == window && AllHeld(r1, cs)
    requires LoopResult(r1, 0, Plenty(window), res, cs)
    ensures res.1 == COUNTER && !res.2 && res.0.lastBytes == 0
    ensures res.0.lastAcknoSent == 1 ==> res.0.output == Concat(cs)
  {
    var n := res.1;
    if res.0.lastAcknoSent == 1 { OutputUpTo(res.0, n, cs); }
    assert cs[..|cs|] == cs;
  }

  /** A window of 65536 full packets or more, from a queue that is always empty: the first packet is put out twice. */
  lemma WrapRun(window: nat) returns (run: seq<Step>)
    requires COUNTER <= window < 0x8000_0000
    ensures RunRoomy(window, window, run) && !Safe(window, window, run)
  {
    var cs, spaces := Same(Blank(), COUNTER), Plenty(window);
    run := TwiceRun(cs, spaces, spaces, spaces);
    ArrivalRunRoomy(window, cs, spaces, |cs| - 1);
    var sys, r1, r, n, stopped := TwiceRunOut(window, cs, spaces, spaces, spaces);
    ComesRound(r1, window, (r, n, stopped), cs);
    assert |sys.b.rcv.output| > |Concat(sys.a.snd.taken)|;
  }

  /** The bound is exact: with room for a packet at every look, all runs with windows of that size are safe
      if and only if the counter of output_pkts can count the packets of a window. */
  lemma WindowBoundExact(window: nat)
    requires 0 < window < 0x8000_0000
    ensures (forall run: seq<Step> :: RunRoomy(window, window, run) ==> Safe(window, window, run)) <==> window < COUNTER
  {
    if window < COUNTER {
      forall run: seq<Step> | RunRoomy(window, window, run)
        ensures Safe(window, window, run)
      {
        RoomySafety(window, window, run);
      }
    } else {
      var run := WrapRun(window);
    }
  }
}
