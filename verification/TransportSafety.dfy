/** Safety of the transport over whole runs. */
module TransportSafety {
  import opened Arith
  import opened Transport

  /** The bytes of a list of packets. */
  function Concat(chunks: seq<Chunk>): seq<byte>
  {
    if chunks == [] then [] else Concat(chunks[..|chunks| - 1]) + chunks[|chunks| - 1]
  }

  // ---------------------------------------------------------------------------------------------
  // Rings
  // ---------------------------------------------------------------------------------------------

  /** Sequence numbers closer together than the window use different slots. */
  lemma PktIdxDistinct(m: nat, n: nat, window: nat)
    requires window > 0 && m < n < m + window && m >= 1
    ensures PktIdx(m, window) != PktIdx(n, window)
  {
    var a, d := m - 1, n - m;
    var q, r := a / window, a % window;
    assert a == q * window + r;
    if r + d < window {
      DivModUnique(q, window, r + d);
    } else {
      MulAdd(q, 1, window);
      DivModUnique(q + 1, window, r + d - window);
    }
  }

  // ---------------------------------------------------------------------------------------------
  // The sending half
  // ---------------------------------------------------------------------------------------------

  /** Packet n of the stream. */
  predicate IsPkt(p: Packet, n: nat, taken: seq<Chunk>)
  {
    1 <= n <= |taken| && p.Data? && p.seqno == n && p.payload == taken[n - 1]
  }

  /** The ring holds exactly the unacknowledged packets, each in its slot. */
  ghost predicate RingHolds(s: Sender)
  {
    && s.window > 0 && |s.pktsSent| == s.window
    && forall n :: s.lastAcknoRecvd <= n <= s.lastSeqnoSent ==> IsPkt(s.pktsSent[PktIdx(n, s.window)], n, s.taken)
  }

  /** Only the last packet can be the end mark, and it is one exactly when the end was read. */
  ghost predicate EndsOnce(taken: seq<Chunk>, readEof: bool)
  {
    && (forall i :: 0 <= i < |taken| - 1 ==> |taken[i]| > 0)
    && (readEof <==> |taken| > 0 && taken[|taken| - 1] == [])
  }

  ghost predicate SentHolds(sent: seq<Packet>, taken: seq<Chunk>)
  {
    forall i :: 0 <= i < |sent| ==> sent[i].Data? && IsPkt(sent[i], sent[i].seqno, taken)
  }

  ghost predicate SenderInv(s: Sender)
  {
    && 0 < s.window < 0x8000_0000
    && 1 <= s.lastAcknoRecvd <= s.lastSeqnoSent + 1
    && s.lastSeqnoSent + 1 - s.lastAcknoRecvd <= s.window
    && |s.taken| == s.lastSeqnoSent
    && RingHolds(s)
    && EndsOnce(s.taken, s.readEof)
    && SentHolds(s.sent, s.taken)
  }

  lemma SendNewDataPktKeeps(s: Sender, ackno: nat, data: Chunk, eof: bool)
    requires SenderInv(s) && !s.readEof && s.lastSeqnoSent + 1 - s.lastAcknoRecvd < s.window
    requires eof <==> data == []
    ensures SenderInv(SendNewDataPkt(s.(readEof := eof), ackno, data))
  {
    var s' := SendNewDataPkt(s.(readEof := eof), ackno, data);
    forall n | s'.lastAcknoRecvd <= n <= s'.lastSeqnoSent
      ensures IsPkt(s'.pktsSent[PktIdx(n, s'.window)], n, s'.taken)
    {
      if n < s'.lastSeqnoSent {
        PktIdxDistinct(n, s'.lastSeqnoSent, s.window);
        assert IsPkt(s.pktsSent[PktIdx(n, s.window)], n, s.taken);
      }
    }
  }

  lemma {:induction false} ReadLoopKeeps(s: Sender, ackno: nat, slots: nat, inputs: seq<Input>)
    requires SenderInv(s) && !s.readEof && slots <= s.window - (s.lastSeqnoSent + 1 - s.lastAcknoRecvd)
    ensures SenderInv(ReadLoop(s, ackno, slots, inputs))
    ensures Grows(s, ReadLoop(s, ackno, slots, inputs))
    decreases slots
  {
    if slots > 0 && inputs != [] {
      match inputs[0]
      case Eof => SendNewDataPktKeeps(s, ackno, [], true);
      case Bytes(b) =>
        if b != [] {
          SendNewDataPktKeeps(s, ackno, b, false);
          var s1 := SendNewDataPkt(s, ackno, b);
          var s2 := if |b| < MAX_PAYLOAD then s1.(partial := true) else s1;
          ReadLoopKeeps(s2, ackno, slots - 1, inputs[1..]);
        }
    }
  }

  /** What was read and sent stays so; more may come after it. */
  ghost predicate Grows(s: Sender, s': Sender)
  {
    && s.taken <= s'.taken && s.sent <= s'.sent && s.lastAcknoRecvd <= s'.lastAcknoRecvd
    && s'.window == s.window
    && (s.readEof ==> s'.taken == s.taken)
  }

  lemma AvailExact(s: Sender)
    requires SenderInv(s)
    ensures AvailSendWindowSlots(s) == s.window - (s.lastSeqnoSent + 1 - s.lastAcknoRecvd)
  {
  }

  lemma RelReadKeeps(s: Sender, ackno: nat, inputs: seq<Input>)
    requires SenderInv(s)
    ensures SenderInv(RelRead(s, ackno, inputs)) && Grows(s, RelRead(s, ackno, inputs))
    ensures RelRead(s, ackno, inputs).lastAcknoRecvd == s.lastAcknoRecvd
  {
    AvailExact(s);
    if !s.readEof && !s.partial {
      ReadLoopKeeps(s, ackno, AvailSendWindowSlots(s), inputs);
      ReadLoopAckno(s, ackno, AvailSendWindowSlots(s), inputs);
    }
  }

  lemma {:induction false} ReadLoopAckno(s: Sender, ackno: nat, slots: nat, inputs: seq<Input>)
    requires s.window > 0 && |s.pktsSent| == s.window
    ensures ReadLoop(s, ackno, slots, inputs).lastAcknoRecvd == s.lastAcknoRecvd
    decreases slots
  {
    if slots > 0 && inputs != [] && inputs[0].Bytes? && inputs[0].b != [] {
      var s1 := SendNewDataPkt(s, ackno, inputs[0].b);
      var s2 := if |inputs[0].b| < MAX_PAYLOAD then s1.(partial := true) else s1;
      ReadLoopAckno(s2, ackno, slots - 1, inputs[1..]);
    }
  }

  lemma ProcessAckPktKeeps(s: Sender, acked: nat, ackno: nat, inputs: seq<Input>)
    requires SenderInv(s)
    ensures SenderInv(ProcessAckPkt(s, acked, ackno, inputs)) && Grows(s, ProcessAckPkt(s, acked, ackno, inputs))
    ensures ProcessAckPkt(s, acked, ackno, inputs).lastAcknoRecvd <=
      if acked > s.lastAcknoRecvd then acked else s.lastAcknoRecvd
  {
    if s.lastAcknoRecvd < acked <= s.lastSeqnoSent + 1 {
      var s1 := s.(partial := s.partial && acked != s.lastSeqnoSent + 1, lastAcknoRecvd := acked);
      assert SenderInv(s1) by {
        forall n | s1.lastAcknoRecvd <= n <= s1.lastSeqnoSent
          ensures IsPkt(s1.pktsSent[PktIdx(n, s1.window)], n, s1.taken)
        {
          assert IsPkt(s.pktsSent[PktIdx(n, s.window)], n, s.taken);
        }
      }
      RelReadKeeps(s1, ackno, inputs);
    }
  }

  /** A retransmission is the oldest unacknowledged packet, as it was first sent. */
  lemma RetransmitPktKeeps(s: Sender, expired: bool)
    requires SenderInv(s)
    ensures var s' := RetransmitPkt(s, expired);
      && SenderInv(s') && Grows(s, s') && s'.lastAcknoRecvd == s.lastAcknoRecvd
      && (s'.sent == s.sent || exists p: Packet :: s'.sent == s.sent + [p] && IsPkt(p, s.lastAcknoRecvd, s.taken))
  {
    if s.lastSeqnoSent >= s.lastAcknoRecvd && expired {
      var p := s.pktsSent[PktIdx(s.lastAcknoRecvd, s.window)];
      assert IsPkt(p, s.lastAcknoRecvd, s.taken);
      assert RetransmitPkt(s, expired).sent == s.sent + [p];
    }
  }

  // ---------------------------------------------------------------------------------------------
  // The receiving half
  // ---------------------------------------------------------------------------------------------

  /** Slot of packet j holds packet j of the stream, which is not the end mark. */
  ghost predicate Held(r: Receiver, j: nat, taken: seq<Chunk>)
    requires r.Shaped()
  {
    IsPkt(r.pktsRecvd[PktIdx(j, r.window)], j, taken) && |taken[j - 1]| > 0 && j <= r.lastSeqnoRecvd
  }

  ghost predicate Flag(r: Receiver, j: nat)
    requires r.Shaped()
  {
    r.hasRecvd[PktIdx(j, r.window)]
  }

  /** The window from packet m on is a faithful ring, and earlier slots of it are free again. */
  ghost predicate Slots(r: Receiver, m: nat, taken: seq<Chunk>)
    requires r.Shaped()
  {
    forall j :: r.lastAcknoSent <= j < r.lastAcknoSent + r.window && Flag(r, j) ==> m <= j && Held(r, j, taken)
  }

  /** Everything before packet m is delivered, and of packet m the first lastBytes bytes. */
  ghost predicate Delivered(r: Receiver, m: nat, taken: seq<Chunk>)
    requires r.Shaped()
  {
    && 1 <= m <= |taken| + 1
    && (forall i :: 0 <= i < m - 1 ==> |taken[i]| > 0)
    && (r.lastBytes > 0 ==> Flag(r, m) && m <= |taken| && r.lastBytes < |taken[m - 1]|)
    && r.output == Concat(taken[..m - 1]) + if r.lastBytes == 0 then [] else taken[m - 1][..r.lastBytes]
  }

  /** State of the loop of output_pkts when n packets are done; with n = 0, the state between calls. */
  ghost predicate LoopInv(r: Receiver, n: nat, taken: seq<Chunk>)
  {
    && r.Shaped() && 1 <= r.lastAcknoSent && n <= r.window
    && Slots(r, r.lastAcknoSent + n, taken)
    && Delivered(r, r.lastAcknoSent + n, taken)
    && !r.eofOut
  }

  ghost predicate OpenInv(r: Receiver, taken: seq<Chunk>)
  {
    LoopInv(r, 0, taken) && !r.lastEof
  }

  /** After the end mark nothing more can come out. */
  ghost predicate EofInv(r: Receiver, taken: seq<Chunk>)
  {
    && r.Shaped() && 1 <= r.lastAcknoSent <= |taken| + 1
    && r.lastEof && r.eofOut
    && !Flag(r, r.lastAcknoSent)
    && r.output <= Concat(taken)
  }

  ghost predicate AcksHold(r: Receiver)
  {
    forall i :: 0 <= i < |r.acks| ==> r.acks[i] <= r.lastAcknoSent
  }

  ghost predicate ReceiverInv(r: Receiver, taken: seq<Chunk>)
  {
    AcksHold(r) && if r.lastEof then EofInv(r, taken) else OpenInv(r, taken)
  }

  lemma PktIdxPeriod(n: nat, window: nat)
    requires window > 0 && n >= 1
    ensures PktIdx(n + window, window) == PktIdx(n, window)
  {
    var q, r := (n - 1) / window, (n - 1) % window;
    MulAdd(q, 1, window);
    DivModUnique(q + 1, window, r);
  }

  lemma ConcatNext(chunks: seq<Chunk>, n: nat)
    requires n < |chunks|
    ensures Concat(chunks[..n + 1]) == Concat(chunks[..n]) + chunks[n]
  {
    assert chunks[..n + 1][..n] == chunks[..n];
  }

  lemma {:induction false} ConcatPrefix(chunks: seq<Chunk>, m: nat, n: nat)
    requires m <= n <= |chunks|
    ensures Concat(chunks[..m]) <= Concat(chunks[..n])
  {
    if m < n {
      ConcatPrefix(chunks, m, n - 1);
      ConcatNext(chunks, n - 1);
    }
  }

  /** The free slots of finished packets are the far end of the window after the acknowledgement. */
  lemma SlotsMove(r: Receiver, n: nat, taken: seq<Chunk>)
    requires LoopInv(r, n, taken) && r.lastBytes == 0
    ensures LoopInv(SendAck(r, r.lastAcknoSent + n), 0, taken)
  {
    var r' := SendAck(r, r.lastAcknoSent + n);
    forall j | r'.lastAcknoSent <= j < r'.lastAcknoSent + r'.window && Flag(r', j)
      ensures Held(r', j, taken)
    {
      if j < r.lastAcknoSent + r.window {
        assert Flag(r, j);
      } else {
        PktIdxPeriod(j - r.window, r.window);
        assert Flag(r, j - r.window);
      }
    }
  }

  /** A held packet m that is not used up yet lies inside the window. */
  lemma FlagInside(r: Receiver, n: nat, taken: seq<Chunk>)
    requires LoopInv(r, n, taken) && Flag(r, r.lastAcknoSent + n)
    ensures n < r.window && Held(r, r.lastAcknoSent + n, taken)
  {
    if n == r.window {
      PktIdxPeriod(r.lastAcknoSent, r.window);
      assert Flag(r, r.lastAcknoSent);
    }
  }

  /** The receiver after k more bytes of the packet in slot idx, left in its middle. */
  function PartDone(r: Receiver, payload: Chunk, k: nat): Receiver
    requires r.lastBytes + k <= |payload|
  {
    r.(output := r.output + payload[r.lastBytes..r.lastBytes + k], lastBytes := r.lastBytes + k)
  }

  /** The receiver after the rest of the packet in slot idx. */
  function Finished(r: Receiver, payload: Chunk, idx: nat): Receiver
    requires idx < |r.hasRecvd| && r.lastBytes <= |payload|
  {
    r.(output := r.output + payload[r.lastBytes..], lastBytes := 0, hasRecvd := r.hasRecvd[idx := false])
  }

  /** Freeing the slot of the packet that the window starts with. */
  lemma SlotsFreed(r: Receiver, r': Receiver, m: nat, taken: seq<Chunk>)
    requires r.Shaped() && r'.Shaped() && Slots(r, m, taken) && r.lastAcknoSent <= m
    requires r'.window == r.window && r'.pktsRecvd == r.pktsRecvd
      && r'.hasRecvd == r.hasRecvd[PktIdx(m, r.window) := false]
    requires r'.lastAcknoSent == r.lastAcknoSent && r'.lastSeqnoRecvd == r.lastSeqnoRecvd
    ensures Slots(r', m + 1, taken)
  {
    forall j | r'.lastAcknoSent <= j < r'.lastAcknoSent + r'.window && Flag(r', j)
      ensures m + 1 <= j && Held(r', j, taken)
    {
      assert Flag(r, j);
      assert j != m;
    }
  }

  /** One packet, finished. */
  lemma FinishPacket(r: Receiver, n: nat, payload: Chunk, taken: seq<Chunk>)
    requires LoopInv(r, n, taken) && Flag(r, r.lastAcknoSent + n)
    requires payload == PayloadOf(r.pktsRecvd[PktIdx(r.lastAcknoSent + n, r.window)])
    ensures r.lastBytes < |payload|
    ensures LoopInv(Finished(r, payload, PktIdx(r.lastAcknoSent + n, r.window)), n + 1, taken)
  {
    FlagInside(r, n, taken);
    var m := r.lastAcknoSent + n;
    assert payload == taken[m - 1];
    SlotsFreed(r, Finished(r, payload, PktIdx(m, r.window)), m, taken);
    DeliveredMore(r, m, taken);
  }

  /** With the rest of packet m, everything before packet m + 1 is delivered. */
  lemma DeliveredMore(r: Receiver, m: nat, taken: seq<Chunk>)
    requires r.Shaped() && Delivered(r, m, taken) && m <= |taken| && r.lastBytes < |taken[m - 1]|
    ensures Delivered(Finished(r, taken[m - 1], PktIdx(m, r.window)), m + 1, taken)
  {
    ConcatNext(taken, m - 1);
    assert taken[m - 1][..r.lastBytes] + taken[m - 1][r.lastBytes..] == taken[m - 1];
  }

  /** Slots depend on the ring alone. */
  lemma SlotsSame(r: Receiver, r': Receiver, m: nat, taken: seq<Chunk>)
    requires r.Shaped() && Slots(r, m, taken)
    requires r'.window == r.window && r'.pktsRecvd == r.pktsRecvd && r'.hasRecvd == r.hasRecvd
    requires r'.lastAcknoSent == r.lastAcknoSent && r'.lastSeqnoRecvd == r.lastSeqnoRecvd
    ensures Slots(r', m, taken)
  {
    forall j | r'.lastAcknoSent <= j < r'.lastAcknoSent + r'.window && Flag(r', j)
      ensures m <= j && Held(r', j, taken)
    {
      assert Flag(r, j);
    }
  }

  /** One packet, left in the middle. */
  lemma PartOfPacket(r: Receiver, n: nat, payload: Chunk, k: nat, taken: seq<Chunk>)
    requires LoopInv(r, n, taken) && Flag(r, r.lastAcknoSent + n)
    requires payload == PayloadOf(r.pktsRecvd[PktIdx(r.lastAcknoSent + n, r.window)])
    requires r.lastBytes + k < |payload|
    ensures LoopInv(PartDone(r, payload, k), n, taken)
  {
    FlagInside(r, n, taken);
    var m := r.lastAcknoSent + n;
    HeldPayload(r, m, payload, taken);
    SlotsSame(r, PartDone(r, payload, k), m, taken);
    DeliveredPart(r, m, payload, k, taken);
  }

  lemma HeldPayload(r: Receiver, m: nat, payload: Chunk, taken: seq<Chunk>)
    requires r.Shaped() && Held(r, m, taken) && payload == PayloadOf(r.pktsRecvd[PktIdx(m, r.window)])
    ensures 1 <= m <= |taken| && payload == taken[m - 1]
  {
  }

  /** With k more bytes of packet m, everything before it and that much of it is delivered. */
  lemma DeliveredPart(r: Receiver, m: nat, payload: Chunk, k: nat, taken: seq<Chunk>)
    requires r.Shaped() && Delivered(r, m, taken) && Flag(r, m)
    requires 1 <= m <= |taken| && payload == taken[m - 1] && r.lastBytes + k < |payload|
    ensures Delivered(PartDone(r, payload, k), m, taken)
  {
    var a := r.lastBytes;
    PrefixGrows(Concat(taken[..m - 1]), payload, a, k, r.output, r.output + payload[a..a + k]);
    assert Flag(PartDone(r, payload, k), m);
  }

  lemma PrefixGrows(before: seq<byte>, p: seq<byte>, a: nat, k: nat, out: seq<byte>, out': seq<byte>)
    requires a + k <= |p| && out' == out + p[a..a + k]
    requires out == before + if a == 0 then [] else p[..a]
    ensures out' == before + if a + k == 0 then [] else p[..a + k]
  {
    assert p[..a] + p[a..a + k] == p[..a + k];
    assert out == before + p[..a];
  }

  /** One turn of the loop on a packet that is not used up. */
  lemma OutputTurn(r: Receiver, n: nat, spaces: seq<nat>, payload: Chunk, k: nat)
    requires r.Shaped() && n < COUNTER && r.hasRecvd[PktIdx(r.lastAcknoSent + n, r.window)]
    requires payload == PayloadOf(r.pktsRecvd[PktIdx(r.lastAcknoSent + n, r.window)]) && r.lastBytes < |payload|
    requires k == BytesToOutput(SpaceAt(spaces, n), r.lastBytes, |payload|)
    ensures var idx := PktIdx(r.lastAcknoSent + n, r.window);
      && Finished(r, payload, idx).Shaped()
      && CountTrue(Finished(r, payload, idx).hasRecvd) < CountTrue(r.hasRecvd)
      && OutputLoop(r, n, spaces) ==
        if r.lastBytes + k < |payload| then (PartDone(r, payload, k), n, true)
        else OutputLoop(Finished(r, payload, idx), n + 1, spaces)
  {
    CountTrueCleared(r.hasRecvd, PktIdx(r.lastAcknoSent + n, r.window));
    OutputPktIs(r, SpaceAt(spaces, n), payload, k);
  }

  lemma OutputPktIs(r: Receiver, space: nat, payload: Chunk, k: nat)
    requires r.lastBytes < |payload| && k == BytesToOutput(space, r.lastBytes, |payload|)
    ensures OutputPkt(r, space, k, payload) == PartDone(r, payload, k).(lastBytes := r.lastBytes)
    ensures r.lastBytes + k == |payload| ==> payload[r.lastBytes..] == payload[r.lastBytes..r.lastBytes + k]
  {
    if space == 0 {
      assert payload[r.lastBytes..r.lastBytes + k] == [];
      assert r.output + [] == r.output;
    }
  }

  /** What the loop leaves behind. */
  ghost predicate LoopKeeps(r: Receiver, n: nat, res: (Receiver, nat, bool), taken: seq<Chunk>)
  {
    && LoopInv(res.0, res.1, taken) && n <= res.1 <= COUNTER
    && res.0.lastAcknoSent == r.lastAcknoSent && res.0.lastEof == r.lastEof && res.0.acks == r.acks
    && (!res.2 ==> res.0.lastBytes == 0)
  }

  /** Where the loop ends: before the first packet that is not held, inside the first that does not fit,
      or when the counter has come round. */
  ghost predicate LoopEnds(r: Receiver, n: nat, res: (Receiver, nat, bool), spaces: seq<nat>)
    requires r.Shaped()
  {
    && n <= res.1 <= COUNTER && res.1 <= r.window
    && (forall i: nat :: n <= i < res.1 ==> Fits(r, spaces, i))
    && (res.2 ==> res.1 < COUNTER && res.1 < r.window && HeldAt(r, res.1) && !Fits(r, spaces, res.1))
    && (res.2 && n < res.1 ==> res.0.lastBytes == SpaceAt(spaces, res.1))
    && (!res.2 ==> res.1 == COUNTER || res.1 == r.window || !HeldAt(r, res.1))
  }

  lemma LoopKeepsOn(r: Receiver, r1: Receiver, n: nat, res: (Receiver, nat, bool), taken: seq<Chunk>)
    requires LoopKeeps(r1, n + 1, res, taken)
    requires r1.lastAcknoSent == r.lastAcknoSent && r1.lastEof == r.lastEof && r1.acks == r.acks
    ensures LoopKeeps(r, n, res, taken)
  {
  }

  lemma LoopKeepsPart(r: Receiver, n: nat, payload: Chunk, k: nat, taken: seq<Chunk>)
    requires LoopInv(r, n, taken) && Flag(r, r.lastAcknoSent + n) && n < COUNTER
    requires payload == PayloadOf(r.pktsRecvd[PktIdx(r.lastAcknoSent + n, r.window)])
    requires r.lastBytes + k < |payload|
    ensures LoopKeeps(r, n, (PartDone(r, payload, k), n, true), taken)
  {
    PartOfPacket(r, n, payload, k, taken);
  }

  /** The loop ends when the counter has come round, since the slot it starts with is free again. */
  lemma LoopRound(r: Receiver, spaces: seq<nat>, taken: seq<Chunk>)
    requires LoopInv(r, COUNTER, taken)
    ensures OutputLoop(r, COUNTER, spaces) == (r, COUNTER, false)
  {
    assert !Flag(r, r.lastAcknoSent);
    LoopAtFree(r, COUNTER, spaces, 0);
  }

  /** r1 is r with packet n used up. */
  ghost predicate UsedUp(r: Receiver, r1: Receiver, n: nat)
    requires r.Shaped()
  {
    && r1.window == r.window && r1.lastAcknoSent == r.lastAcknoSent && r1.pktsRecvd == r.pktsRecvd
    && r1.hasRecvd == r.hasRecvd[PktIdx(r.lastAcknoSent + n, r.window) := false]
  }

  /** Using up packet n changes nothing about the later ones. */
  lemma LaterSame(r: Receiver, r1: Receiver, n: nat, i: nat, spaces: seq<nat>)
    requires r.Shaped() && r1.Shaped() && n < i < r.window && r.lastAcknoSent >= 1 && UsedUp(r, r1, n)
    ensures HeldAt(r1, i) == HeldAt(r, i) && Fits(r1, spaces, i) == Fits(r, spaces, i)
  {
    PktIdxDistinct(r.lastAcknoSent + n, r.lastAcknoSent + i, r.window);
  }

  lemma LoopEndsOn(r: Receiver, r1: Receiver, n: nat, res: (Receiver, nat, bool), spaces: seq<nat>)
    requires r.Shaped() && r1.Shaped() && r.lastAcknoSent >= 1 && n < r.window && Fits(r, spaces, n) && UsedUp(r, r1, n)
    requires LoopEnds(r1, n + 1, res, spaces) && (res.2 && res.1 == n + 1 ==> res.0.lastBytes == SpaceAt(spaces, res.1))
    ensures LoopEnds(r, n, res, spaces)
  {
    forall i: nat | n <= i < res.1
      ensures Fits(r, spaces, i)
    {
      if n < i { LaterSame(r, r1, n, i, spaces); }
    }
    if res.1 < r.window { LaterSame(r, r1, n, res.1, spaces); }
  }

  /** A packet that is left in the middle did not fit. */
  lemma LoopEndsPart(r: Receiver, n: nat, payload: Chunk, k: nat, spaces: seq<nat>)
    requires r.Shaped() && n < COUNTER && n < r.window && HeldAt(r, n) && (n > 0 ==> r.lastBytes == 0)
    requires payload == PayloadOf(r.pktsRecvd[PktIdx(r.lastAcknoSent + n, r.window)])
    requires k == BytesToOutput(SpaceAt(spaces, n), r.lastBytes, |payload|) && r.lastBytes + k < |payload|
    ensures LoopEnds(r, n, (PartDone(r, payload, k), n, true), spaces) && k == SpaceAt(spaces, n)
  {
  }

  /** One turn, seen from the ring and the room. */
  lemma TurnEnds(r: Receiver, n: nat, spaces: seq<nat>, taken: seq<Chunk>) returns (r1: Receiver, stopped: bool)
    requires LoopInv(r, n, taken) && n < COUNTER && HeldAt(r, n) && (n > 0 ==> r.lastBytes == 0)
    ensures n < r.window && r1.Shaped()
    ensures stopped ==> OutputLoop(r, n, spaces) == (r1, n, true) && r1.lastBytes == r.lastBytes + SpaceAt(spaces, n)
    ensures stopped ==> LoopEnds(r, n, (r1, n, true), spaces) && LoopKeeps(r, n, (r1, n, true), taken)
    ensures !stopped ==> OutputLoop(r, n, spaces) == OutputLoop(r1, n + 1, spaces)
    ensures !stopped ==>
              LoopInv(r1, n + 1, taken) && r1.lastBytes == 0 && CountTrue(r1.hasRecvd) < CountTrue(r.hasRecvd)
    ensures !stopped ==> Fits(r, spaces, n) && UsedUp(r, r1, n) && r1.lastEof == r.lastEof && r1.acks == r.acks
  {
    var idx := PktIdx(r.lastAcknoSent + n, r.window);
    var payload := PayloadOf(r.pktsRecvd[idx]);
    var k := BytesToOutput(SpaceAt(spaces, n), r.lastBytes, |payload|);
    assert Flag(r, r.lastAcknoSent + n);
    FlagInside(r, n, taken);
    FinishPacket(r, n, payload, taken);
    OutputTurn(r, n, spaces, payload, k);
    stopped := r.lastBytes + k < |payload|;
    if stopped {
      r1 := PartDone(r, payload, k);
      LoopEndsPart(r, n, payload, k, spaces);
      LoopKeepsPart(r, n, payload, k, taken);
    } else {
      r1 := Finished(r, payload, idx);
    }
  }

  /** What the loop leaves behind, and where it ends. */
  ghost predicate LoopResult(r: Receiver, n: nat, spaces: seq<nat>, res: (Receiver, nat, bool), taken: seq<Chunk>)
    requires r.Shaped()
  {
    && LoopKeeps(r, n, res, taken) && LoopEnds(r, n, res, spaces)
    && (res.2 && res.1 == n ==> res.0.lastBytes == r.lastBytes + SpaceAt(spaces, n))
  }

  /** No more turns. */
  lemma LoopStops(r: Receiver, n: nat, spaces: seq<nat>, taken: seq<Chunk>)
    requires LoopInv(r, n, taken) && n <= COUNTER && (n > 0 ==> r.lastBytes == 0) && (n == COUNTER || !HeldAt(r, n))
    ensures OutputLoop(r, n, spaces) == (r, n, false) && LoopResult(r, n, spaces, (r, n, false), taken)
  {
    if n == COUNTER { LoopRound(r, spaces, taken); } else { LoopNotHeld(r, n, spaces); }
  }

  lemma LoopNotHeld(r: Receiver, n: nat, spaces: seq<nat>)
    requires r.Shaped() && n < COUNTER && !HeldAt(r, n)
    ensures OutputLoop(r, n, spaces) == (r, n, false)
  {
    LoopAtFree(r, n, spaces, n);
  }

  lemma LoopAtFree(r: Receiver, n: nat, spaces: seq<nat>, numPkts: nat)
    requires r.Shaped() && numPkts == n % COUNTER && !HeldAt(r, numPkts)
    ensures OutputLoop(r, n, spaces) == (r, n, false)
  {
  }

  lemma LoopGoesOn(r: Receiver, r1: Receiver, n: nat, spaces: seq<nat>, res: (Receiver, nat, bool), taken: seq<Chunk>)
    requires r.Shaped() && r1.Shaped() && r.lastAcknoSent >= 1 && n < r.window && Fits(r, spaces, n) && UsedUp(r, r1, n)
    requires r1.lastBytes == 0 && r1.lastEof == r.lastEof && r1.acks == r.acks
      && LoopResult(r1, n + 1, spaces, res, taken)
    ensures LoopResult(r, n, spaces, res, taken)
  {
    LoopEndsOn(r, r1, n, res, spaces);
    LoopKeepsOn(r, r1, n, res, taken);
  }

  /** The loop as a function value. */
  type Loop = (Receiver, nat) -> (Receiver, nat, bool)

  function LoopWith(spaces: seq<nat>): Loop
  {
    (r: Receiver, n: nat) => if r.Shaped() then OutputLoop(r, n, spaces) else (r, n, false)
  }

  ghost predicate LoopsAt(loop: Loop, spaces: seq<nat>, r: Receiver, n: nat)
  {
    r.Shaped() ==> loop(r, n) == OutputLoop(r, n, spaces)
  }

  ghost predicate Loops(loop: Loop, spaces: seq<nat>)
  {
    forall r: Receiver, n: nat {:trigger LoopsAt(loop, spaces, r, n)} :: LoopsAt(loop, spaces, r, n)
  }

  lemma LoopWithLoops(spaces: seq<nat>) returns (loop: Loop)
    ensures Loops(loop, spaces)
  {
    loop := LoopWith(spaces);
    forall r: Receiver, n: nat
      ensures LoopsAt(loop, spaces, r, n)
    {
    }
  }

  /** The next turn, if there is one. */
  lemma LoopTurn(loop: Loop, r: Receiver, n: nat, spaces: seq<nat>, taken: seq<Chunk>)
    returns (r1: Receiver, ends: bool)
    requires Loops(loop, spaces) && LoopInv(r, n, taken) && n <= COUNTER && (n > 0 ==> r.lastBytes == 0)
    ensures ends ==> LoopResult(r, n, spaces, loop(r, n), taken)
    ensures !ends ==> n < COUNTER && n < r.window && loop(r, n) == loop(r1, n + 1) && LoopInv(r1, n + 1, taken)
    ensures !ends ==> r1.lastBytes == 0 && CountTrue(r1.hasRecvd) < CountTrue(r.hasRecvd)
    ensures !ends ==> Fits(r, spaces, n) && UsedUp(r, r1, n) && r1.lastEof == r.lastEof && r1.acks == r.acks
  {
    r1, ends := r, true;
    assert LoopsAt(loop, spaces, r, n);
    if n == COUNTER || !HeldAt(r, n) {
      LoopStops(r, n, spaces, taken);
    } else {
      r1, ends := TurnEnds(r, n, spaces, taken);
      assert LoopsAt(loop, spaces, r1, n + 1);
    }
  }

  lemma {:induction false} LoopKeepsOnward(loop: Loop, r: Receiver, n: nat, spaces: seq<nat>, taken: seq<Chunk>)
    requires Loops(loop, spaces) && LoopInv(r, n, taken) && n <= COUNTER && (n > 0 ==> r.lastBytes == 0)
    ensures LoopResult(r, n, spaces, loop(r, n), taken)
    decreases CountTrue(r.hasRecvd)
  {
    var r1, ends := LoopTurn(loop, r, n, spaces, taken);
    if !ends {
      LoopKeepsOnward(loop, r1, n + 1, spaces, taken);
      LoopGoesOn(r, r1, n, spaces, loop(r1, n + 1), taken);
    }
  }

  /** The whole loop. */
  lemma OutputLoopKeeps(r: Receiver, spaces: seq<nat>, taken: seq<Chunk>)
    requires LoopInv(r, 0, taken)
    ensures LoopResult(r, 0, spaces, OutputLoop(r, 0, spaces), taken)
  {
    var loop := LoopWithLoops(spaces);
    LoopKeepsOnward(loop, r, 0, spaces, taken);
    assert LoopsAt(loop, spaces, r, 0);
  }

  /** The loop makes the turns that the ring and the room allow. */
  lemma TurnsExact(r: Receiver, spaces: seq<nat>, taken: seq<Chunk>)
    requires OpenInv(r, taken)
    ensures var (_, n, stopped) := OutputLoop(r, 0, spaces);
      && n <= COUNTER && (MidStop(r, spaces) <==> stopped && n > 0) && (Wraps(r, spaces) <==> n == COUNTER)
  {
    OutputLoopKeeps(r, spaces, taken);
    var (_, n, stopped) := OutputLoop(r, 0, spaces);
    assert FirstFit(r, spaces, n);
    forall i: nat | FirstFit(r, spaces, i) && i <= r.window && n < i
      ensures n == COUNTER
    {
      assert Fits(r, spaces, n);
    }
    if k: nat :| k < r.window && 0 < k < COUNTER && FirstFit(r, spaces, k) && HeldAt(r, k) && !Fits(r, spaces, k) {
      assert k >= n;
    }
  }

  /** Between calls: a call of output_pkts keeps the receiver faithful exactly when it acknowledges the packets
      it finishes, and that can be seen from the ring and the room beforehand. */
  lemma OutputPktsExact(r: Receiver, spaces: seq<nat>, taken: seq<Chunk>)
    requires OpenInv(r, taken)
    ensures OpenInv(OutputPkts(r, spaces), taken) <==> !LosesAck(r, spaces)
    ensures !LosesAck(r, spaces) && AcksHold(r) ==> AcksHold(OutputPkts(r, spaces))
    ensures OutputPkts(r, spaces).lastAcknoSent >= r.lastAcknoSent
  {
    OutputLoopKeeps(r, spaces, taken);
    TurnsExact(r, spaces, taken);
    var (r1, n, stopped) := OutputLoop(r, 0, spaces);
    OutputPktsEnds(r, spaces, r1, n, stopped, taken);
  }

  /** What follows from the turns made. */
  lemma OutputPktsEnds(r: Receiver, spaces: seq<nat>, r1: Receiver, n: nat, stopped: bool, taken: seq<Chunk>)
    requires OpenInv(r, taken) && OutputLoop(r, 0, spaces) == (r1, n, stopped)
      && LoopKeeps(r, 0, (r1, n, stopped), taken)
    ensures OpenInv(OutputPkts(r, spaces), taken) <==> !(stopped && n > 0) && n < COUNTER
    ensures !(stopped && n > 0) && n < COUNTER && AcksHold(r) ==> AcksHold(OutputPkts(r, spaces))
    ensures OutputPkts(r, spaces).lastAcknoSent >= r.lastAcknoSent
  {
    OutputPktsIs(r, spaces, r1, n, stopped);
    AfterLoop(r1, n, stopped, taken, r.acks, r.lastAcknoSent);
  }

  /** What the loop leaves: with the acknowledgement for its n packets the receiver is as it was, without it is not. */
  lemma AfterLoop(r1: Receiver, n: nat, stopped: bool, taken: seq<Chunk>, acks: seq<nat>, ackno: nat)
    requires LoopInv(r1, n, taken) && (!stopped ==> r1.lastBytes == 0) && !r1.lastEof
    requires r1.acks == acks && r1.lastAcknoSent == ackno
    ensures var r' := if !stopped && 0 < n < COUNTER then SendAck(r1, r1.lastAcknoSent + n) else r1;
      && (OpenInv(r', taken) <==> !(stopped && n > 0) && n < COUNTER)
      && (!(stopped && n > 0) && n < COUNTER && (forall i :: 0 <= i < |acks| ==> acks[i] <= ackno) ==> AcksHold(r'))
      && r'.lastAcknoSent >= ackno
  {
    if !stopped && n < COUNTER {
      SlotsMove(r1, n, taken);
    } else if n > 0 {
      DeliveredOnce(r1, r1.lastAcknoSent, r1.lastAcknoSent + n, taken);
    }
  }

  lemma OutputPktsIs(r: Receiver, spaces: seq<nat>, r1: Receiver, n: nat, stopped: bool)
    requires r.Shaped() && OutputLoop(r, 0, spaces) == (r1, n, stopped) && n <= COUNTER
    ensures OutputPkts(r, spaces) == if !stopped && 0 < n < COUNTER then SendAck(r1, r1.lastAcknoSent + n) else r1
  {
  }

  lemma {:induction false} ConcatLonger(taken: seq<Chunk>, m: nat, n: nat)
    requires m < n <= |taken| && forall i :: 0 <= i < n ==> |taken[i]| > 0
    ensures |Concat(taken[..m])| < |Concat(taken[..n])|
  {
    ConcatNext(taken, n - 1);
    if m < n - 1 {
      ConcatLonger(taken, m, n - 1);
    }
  }

  /** The same output cannot be up to the middle of packet n and also of the earlier packet m. */
  lemma DeliveredOnce(r: Receiver, m: nat, n: nat, taken: seq<Chunk>)
    requires r.Shaped() && 1 <= m < n && Delivered(r, n, taken)
    ensures !Delivered(r, m, taken)
  {
    ConcatLonger(taken, m - 1, n - 1);
  }

  /** Storing a fresh data packet of the stream. */
  lemma AddPktKeeps(r: Receiver, p: Packet, taken: seq<Chunk>)
    requires OpenInv(r, taken) && Fresh(r, p) && p.payload != [] && IsPkt(p, p.seqno, taken)
    ensures OpenInv(AddPktToRecvWindow(r, p), taken)
  {
    var r' := AddPktToRecvWindow(r, p);
    forall j | r'.lastAcknoSent <= j < r'.lastAcknoSent + r'.window && Flag(r', j)
      ensures Held(r', j, taken)
    {
      if j < p.seqno {
        PktIdxDistinct(j, p.seqno, r.window);
        assert Flag(r, j);
      } else if j > p.seqno {
        PktIdxDistinct(p.seqno, j, r.window);
        assert Flag(r, j);
      }
    }
  }

  lemma EofKeeps(r: Receiver, p: Packet, taken: seq<Chunk>)
    requires OpenInv(r, taken) && AcksHold(r) && AcceptsEof(r, p) && IsPkt(p, p.seqno, taken)
    ensures ReceiverInv(ProcessEofPkt(r), taken)
  {
    var n := r.lastAcknoSent;
    if r.window == 1 {
      PktIdxPeriod(n, 1);
      assert PktIdx(p.seqno, r.window) == PktIdx(n, r.window);
    } else {
      assert !Flag(r, n + 1);
    }
    OutputIsPrefix(r, n, taken);
  }

  lemma OutputIsPrefix(r: Receiver, m: nat, taken: seq<Chunk>)
    requires r.Shaped() && Delivered(r, m, taken)
    ensures r.output <= Concat(taken)
  {
    assert taken[..|taken|] == taken;
    if r.lastBytes == 0 {
      ConcatPrefix(taken, m - 1, |taken|);
    } else {
      ConcatNext(taken, m - 1);
      ConcatPrefix(taken, m, |taken|);
    }
  }

  /** With a full packet still to come, not everything is delivered. */
  lemma EofTooEarly(r: Receiver, n: nat, taken: seq<Chunk>)
    requires r.Shaped() && 1 <= n <= |taken| && Delivered(r, n, taken) && |taken[n - 1]| > 0
    ensures |r.output| < |Concat(taken)|
  {
    assert taken[..|taken|] == taken;
    ConcatNext(taken, n - 1);
    assert |r.output| < |Concat(taken[..n])|;
    ConcatPrefix(taken, n, |taken|);
  }

  /** The end mark is acted on with everything delivered exactly when it is the packet waited for. */
  lemma EofExact(r: Receiver, p: Packet, taken: seq<Chunk>, readEof: bool)
    requires OpenInv(r, taken) && AcceptsEof(r, p) && IsPkt(p, p.seqno, taken) && EndsOnce(taken, readEof)
    ensures ProcessEofPkt(r).output == Concat(taken) <==> p.seqno == r.lastAcknoSent
  {
    var n := r.lastAcknoSent;
    if p.seqno == n {
      assert n == |taken| && !Flag(r, n);
      assert taken[..n] == taken;
      ConcatNext(taken, n - 1);
    } else {
      EofTooEarly(r, n, taken);
    }
  }

  /** The event makes output_pkts finish packets without acknowledging them. */
  predicate LeavesUnacked(h: Host, peer: Host, e: Event)
    requires h.Shaped()
  {
    match e
    case Drained(spaces) => LosesAck(h.rcv, spaces)
    case DataArrives(k, spaces) =>
      k < |peer.snd.sent| && Fresh(h.rcv, peer.snd.sent[k]) && peer.snd.sent[k].payload != []
      && LosesAck(AddPktToRecvWindow(h.rcv, peer.snd.sent[k]), spaces)
    case _ => false
  }

  /** The event acts on an end mark although earlier packets are missing. */
  predicate EndsEarly(h: Host, peer: Host, e: Event)
    requires h.Shaped()
  {
    e.DataArrives? && e.k < |peer.snd.sent| && AcceptsEof(h.rcv, peer.snd.sent[e.k])
    && peer.snd.sent[e.k].seqno != h.rcv.lastAcknoSent
  }

  lemma ProcessDataPktKeeps(r: Receiver, p: Packet, spaces: seq<nat>, taken: seq<Chunk>)
    requires ReceiverInv(r, taken) && p.Data? && IsPkt(p, p.seqno, taken)
    requires Fresh(r, p) && p.payload != [] ==> !LosesAck(AddPktToRecvWindow(r, p), spaces)
    ensures ReceiverInv(ProcessDataPkt(r, p, spaces), taken)
    ensures ProcessDataPkt(r, p, spaces).lastAcknoSent >= r.lastAcknoSent
  {
    if Fresh(r, p) {
      if p.payload != [] {
        AddPktKeeps(r, p, taken);
        OutputPktsExact(AddPktToRecvWindow(r, p), spaces, taken);
      } else if !HasBufferedPkts(r) {
        EofKeeps(r, p, taken);
      } else {
        SameAgain(r, taken);
      }
    } else {
      SameAgain(r, taken);
    }
  }

  lemma SameAgain(r: Receiver, taken: seq<Chunk>)
    requires ReceiverInv(r, taken)
    ensures ReceiverInv(SendAck(r, r.lastAcknoSent), taken)
  {
    var r' := SendAck(r, r.lastAcknoSent);
    if !r.lastEof {
      forall j | r'.lastAcknoSent <= j < r'.lastAcknoSent + r'.window && Flag(r', j)
        ensures Held(r', j, taken)
      {
        assert Flag(r, j);
      }
    }
  }

  lemma DrainedKeeps(r: Receiver, spaces: seq<nat>, taken: seq<Chunk>)
    requires ReceiverInv(r, taken) && !LosesAck(r, spaces)
    ensures ReceiverInv(OutputPkts(r, spaces), taken)
    ensures OutputPkts(r, spaces).lastAcknoSent >= r.lastAcknoSent
  {
    if r.lastEof {
      assert !Flag(r, r.lastAcknoSent);
      assert OutputPkts(r, spaces) == r;
    } else {
      OutputPktsExact(r, spaces, taken);
    }
  }

  /** More of the stream does not disturb the receiver. */
  lemma TakenGrows(r: Receiver, taken: seq<Chunk>, taken': seq<Chunk>)
    requires ReceiverInv(r, taken) && taken <= taken'
    ensures ReceiverInv(r, taken')
  {
    if r.lastEof {
      assert taken == taken'[..|taken|] && taken'[..|taken'|] == taken';
      ConcatPrefix(taken', |taken|, |taken'|);
    } else {
      SlotsGrow(r, taken, taken');
      DeliveredGrow(r, r.lastAcknoSent, taken, taken');
    }
  }

  lemma SlotsGrow(r: Receiver, taken: seq<Chunk>, taken': seq<Chunk>)
    requires r.Shaped() && Slots(r, r.lastAcknoSent, taken) && taken <= taken'
    ensures Slots(r, r.lastAcknoSent, taken')
  {
    forall j | r.lastAcknoSent <= j < r.lastAcknoSent + r.window && Flag(r, j)
      ensures Held(r, j, taken')
    {
      assert Held(r, j, taken);
    }
  }

  lemma DeliveredGrow(r: Receiver, m: nat, taken: seq<Chunk>, taken': seq<Chunk>)
    requires r.Shaped() && Delivered(r, m, taken) && taken <= taken'
    ensures Delivered(r, m, taken')
  {
    assert taken'[..m - 1] == taken[..m - 1];
  }

  // ---------------------------------------------------------------------------------------------
  // The system
  // ---------------------------------------------------------------------------------------------

  /** One direction: what s reads goes to r. */
  ghost predicate DirInv(s: Sender, r: Receiver)
  {
    SenderInv(s) && ReceiverInv(r, s.taken) && s.lastAcknoRecvd <= r.lastAcknoSent
  }

  ghost predicate SysInv(sys: System)
  {
    DirInv(sys.a.snd, sys.b.rcv) && DirInv(sys.b.snd, sys.a.rcv)
  }

  /** The end mark was acted on only with everything delivered. */
  ghost predicate EofComplete(s: Sender, r: Receiver)
  {
    r.lastEof ==> s.readEof && r.lastAcknoSent == |s.taken| + 1 && r.output == Concat(s.taken)
  }

  ghost predicate SysComplete(sys: System)
  {
    EofComplete(sys.a.snd, sys.b.rcv) && EofComplete(sys.b.snd, sys.a.rcv)
  }

  lemma InitKeeps(windowA: nat, windowB: nat)
    requires 0 < windowA < 0x8000_0000 && 0 < windowB < 0x8000_0000
    ensures SysInv(Exec(windowA, windowB, [])) && SysComplete(Exec(windowA, windowB, []))
  {
  }

  /** An event at h keeps both directions, h being the sender of one and the receiver of the other. */
  lemma HandleKeeps(h: Host, peer: Host, e: Event)
    requires h.Shaped() && DirInv(h.snd, peer.rcv) && DirInv(peer.snd, h.rcv)
    requires !LeavesUnacked(h, peer, e)
    ensures DirInv(Handle(h, peer, e).snd, peer.rcv) && DirInv(peer.snd, Handle(h, peer, e).rcv)
    ensures Grows(h.snd, Handle(h, peer, e).snd)
  {
    match e
    case ReadReady(inputs) =>
      RelReadKeeps(h.snd, h.rcv.lastAcknoSent, inputs);
      TakenGrows(peer.rcv, h.snd.taken, Handle(h, peer, e).snd.taken);
    case AckArrives(k, inputs) =>
      if k < |peer.rcv.acks| {
        ProcessAckPktKeeps(h.snd, peer.rcv.acks[k], h.rcv.lastAcknoSent, inputs);
        TakenGrows(peer.rcv, h.snd.taken, Handle(h, peer, e).snd.taken);
      }
    case DataArrives(k, spaces) =>
      if k < |peer.snd.sent| {
        ProcessDataPktKeeps(h.rcv, peer.snd.sent[k], spaces, peer.snd.taken);
      }
    case Drained(spaces) => DrainedKeeps(h.rcv, spaces, peer.snd.taken);
    case TimerFires(expired) => RetransmitPktKeeps(h.snd, expired);
  }

  /** After the end of the input nothing is read, so completeness stays. */
  lemma HandleCompletes(h: Host, peer: Host, e: Event)
    requires h.Shaped() && DirInv(h.snd, peer.rcv) && DirInv(peer.snd, h.rcv)
    requires EofComplete(h.snd, peer.rcv) && EofComplete(peer.snd, h.rcv)
    requires !LeavesUnacked(h, peer, e) && !EndsEarly(h, peer, e)
    ensures EofComplete(Handle(h, peer, e).snd, peer.rcv) && EofComplete(peer.snd, Handle(h, peer, e).rcv)
  {
    HandleKeeps(h, peer, e);
    match e
    case DataArrives(k, spaces) =>
      if k < |peer.snd.sent| {
        DataCompletes(h.rcv, peer.snd, peer.snd.sent[k], spaces);
      }
    case Drained(spaces) => DrainedSameEof(h.rcv, spaces, peer.snd.taken);
    case AckArrives(k, inputs) =>
      if k < |peer.rcv.acks| && h.snd.readEof {
        ReadEofStays(h.snd, peer.rcv.acks[k], h.rcv.lastAcknoSent, inputs);
      }
    case _ =>
  }

  lemma ReadEofStays(s: Sender, acked: nat, ackno: nat, inputs: seq<Input>)
    requires s.window > 0 && |s.pktsSent| == s.window && s.readEof
    ensures ProcessAckPkt(s, acked, ackno, inputs).readEof
  {
  }

  lemma DrainedSameEof(r: Receiver, spaces: seq<nat>, taken: seq<Chunk>)
    requires ReceiverInv(r, taken)
    ensures OutputPkts(r, spaces).lastEof == r.lastEof
    ensures r.lastEof ==> OutputPkts(r, spaces) == r
  {
    if r.lastEof {
      assert !Flag(r, r.lastAcknoSent);
    } else {
      OutputLoopKeeps(r, spaces, taken);
    }
  }

  lemma DataCompletes(r: Receiver, s: Sender, p: Packet, spaces: seq<nat>)
    requires SenderInv(s) && ReceiverInv(r, s.taken) && EofComplete(s, r)
    requires p.Data? && IsPkt(p, p.seqno, s.taken)
    requires AcceptsEof(r, p) ==> p.seqno == r.lastAcknoSent
    ensures EofComplete(s, ProcessDataPkt(r, p, spaces))
  {
    if AcceptsEof(r, p) {
      EofExact(r, p, s.taken, s.readEof);
    } else if Fresh(r, p) && p.payload != [] {
      AddPktKeeps(r, p, s.taken);
      OutputLoopKeeps(AddPktToRecvWindow(r, p), spaces, s.taken);
    }
  }

  // ---------------------------------------------------------------------------------------------
  // Runs
  // ---------------------------------------------------------------------------------------------

  /** The host a step happens at, and its peer. */
  function At(sys: System, s: Step): (Host, Host)
  {
    if s.atA then (sys.a, sys.b) else (sys.b, sys.a)
  }

  /** No step of the run finishes packets without acknowledging them. */
  predicate Smooth(windowA: nat, windowB: nat, run: seq<Step>)
    requires windowA > 0 && windowB > 0
    decreases |run|
  {
    run == [] ||
    var before, s := run[..|run| - 1], run[|run| - 1];
    Smooth(windowA, windowB, before) &&
    !LeavesUnacked(At(Exec(windowA, windowB, before), s).0, At(Exec(windowA, windowB, before), s).1, s.e)
  }

  /** No step of the run acts on an end mark while packets are missing. */
  predicate Orderly(windowA: nat, windowB: nat, run: seq<Step>)
    requires windowA > 0 && windowB > 0
    decreases |run|
  {
    run == [] ||
    var before, s := run[..|run| - 1], run[|run| - 1];
    Orderly(windowA, windowB, before) &&
    !EndsEarly(At(Exec(windowA, windowB, before), s).0, At(Exec(windowA, windowB, before), s).1, s.e)
  }

  lemma {:induction false} RunKeeps(windowA: nat, windowB: nat, run: seq<Step>)
    requires 0 < windowA < 0x8000_0000 && 0 < windowB < 0x8000_0000 && Smooth(windowA, windowB, run)
    ensures SysInv(Exec(windowA, windowB, run))
    ensures Orderly(windowA, windowB, run) ==> SysComplete(Exec(windowA, windowB, run))
    decreases |run|
  {
    if run == [] {
      InitKeeps(windowA, windowB);
    } else {
      var before, s := run[..|run| - 1], run[|run| - 1];
      RunKeeps(windowA, windowB, before);
      var (h, peer) := At(Exec(windowA, windowB, before), s);
      HandleKeeps(h, peer, s.e);
      if Orderly(windowA, windowB, run) {
        HandleCompletes(h, peer, s.e);
      }
    }
  }

  /** A step that finishes packets without acknowledging them breaks the receiver. */
  lemma UnackedBreaks(h: Host, peer: Host, e: Event)
    requires h.Shaped() && DirInv(h.snd, peer.rcv) && DirInv(peer.snd, h.rcv) && LeavesUnacked(h, peer, e)
    ensures !DirInv(peer.snd, Handle(h, peer, e).rcv)
  {
    var taken := peer.snd.taken;
    if e.Drained? {
      if h.rcv.lastEof { NothingHeld(h.rcv, e.spaces, taken); }
      OutputBreaks(h.rcv, e.spaces, taken);
    } else {
      var p := peer.snd.sent[e.k];
      AddPktKeeps(h.rcv, p, taken);
      OutputBreaks(AddPktToRecvWindow(h.rcv, p), e.spaces, taken);
    }
  }

  /** After the end nothing is held where the window starts. */
  lemma NothingHeld(r: Receiver, spaces: seq<nat>, taken: seq<Chunk>)
    requires EofInv(r, taken)
    ensures !LosesAck(r, spaces)
  {
    assert !Flag(r, r.lastAcknoSent) && !Fits(r, spaces, 0);
  }

  lemma OutputBreaks(r: Receiver, spaces: seq<nat>, taken: seq<Chunk>)
    requires OpenInv(r, taken) && LosesAck(r, spaces)
    ensures !ReceiverInv(OutputPkts(r, spaces), taken)
  {
    OutputPktsExact(r, spaces, taken);
    OutputLoopKeeps(r, spaces, taken);
  }

  /** The invariants hold after every step of the run. */
  ghost predicate AlwaysFaithful(windowA: nat, windowB: nat, run: seq<Step>)
    requires windowA > 0 && windowB > 0
    decreases |run|
  {
    SysInv(Exec(windowA, windowB, run)) && (run == [] || AlwaysFaithful(windowA, windowB, run[..|run| - 1]))
  }

  /** The condition is exact: both ends stay faithful throughout a run if and only if it is smooth. */
  lemma {:induction false} FaithfulExactlyWhenSmooth(windowA: nat, windowB: nat, run: seq<Step>)
    requires 0 < windowA < 0x8000_0000 && 0 < windowB < 0x8000_0000
    ensures AlwaysFaithful(windowA, windowB, run) <==> Smooth(windowA, windowB, run)
    decreases |run|
  {
    if run == [] {
      InitKeeps(windowA, windowB);
    } else {
      var before, s := run[..|run| - 1], run[|run| - 1];
      FaithfulExactlyWhenSmooth(windowA, windowB, before);
      var (h, peer) := At(Exec(windowA, windowB, before), s);
      if Smooth(windowA, windowB, run) {
        RunKeeps(windowA, windowB, run);
      } else if AlwaysFaithful(windowA, windowB, before) {
        UnackedBreaks(h, peer, s.e);
      }
    }
  }

  // ---------------------------------------------------------------------------------------------
  // What follows
  // ---------------------------------------------------------------------------------------------

  /** Safety of the direction from s to r. */
  ghost predicate DirSafe(s: Sender, r: Receiver)
  {
    // the bytes put out are a prefix of the bytes read
    && r.output <= Concat(s.taken)
    // the end of the output is announced exactly when an end mark was acted on, never by an empty write
    && r.eofOut == r.lastEof
    // acknowledgements run behind deliveries, and deliveries behind sending
    && s.lastAcknoRecvd <= r.lastAcknoSent <= s.lastSeqnoSent + 1
    // no more than a window is on its way
    && s.lastSeqnoSent + 1 - s.lastAcknoRecvd <= s.window
    // no acknowledgement that can still arrive is beyond what was sent
    && (forall i :: 0 <= i < |r.acks| ==> r.acks[i] <= s.lastSeqnoSent + 1)
    // no packet that can still arrive is beyond the receiver's window
    && (s.window <= r.window ==>
          forall i :: 0 <= i < |s.sent| ==> s.sent[i].Data? && s.sent[i].seqno < r.lastAcknoSent + r.window)
  }

  lemma DirInvIsSafe(s: Sender, r: Receiver)
    requires DirInv(s, r)
    ensures DirSafe(s, r)
  {
    if !r.lastEof {
      OutputIsPrefix(r, r.lastAcknoSent, s.taken);
    }
  }

  /** Sliding windows of any sizes: every run in which output_pkts never leaves midway is safe in both directions. */
  lemma SlidingWindowSafety(windowA: nat, windowB: nat, run: seq<Step>)
    requires 0 < windowA < 0x8000_0000 && 0 < windowB < 0x8000_0000 && Smooth(windowA, windowB, run)
    ensures var sys := Exec(windowA, windowB, run);
            DirSafe(sys.a.snd, sys.b.rcv) && DirSafe(sys.b.snd, sys.a.rcv)
  {
    RunKeeps(windowA, windowB, run);
    var sys := Exec(windowA, windowB, run);
    DirInvIsSafe(sys.a.snd, sys.b.rcv);
    DirInvIsSafe(sys.b.snd, sys.a.rcv);
  }

  /** The output ended although packet lastAcknoSent of the stream is still to come. */
  ghost predicate CutOff(s: Sender, r: Receiver)
  {
    r.lastEof && r.lastAcknoSent <= |s.taken|
  }

  lemma CutOffStays(h: Host, peer: Host, e: Event)
    requires h.Shaped() && DirInv(h.snd, peer.rcv) && DirInv(peer.snd, h.rcv) && !LeavesUnacked(h, peer, e)
    ensures CutOff(h.snd, peer.rcv) ==> CutOff(Handle(h, peer, e).snd, peer.rcv)
    ensures CutOff(peer.snd, h.rcv) || EndsEarly(h, peer, e) ==> CutOff(peer.snd, Handle(h, peer, e).rcv)
  {
    HandleKeeps(h, peer, e);
    if e.Drained? {
      DrainedSameEof(h.rcv, e.spaces, peer.snd.taken);
    }
  }

  lemma {:induction false} RunCutOff(windowA: nat, windowB: nat, run: seq<Step>)
    requires 0 < windowA < 0x8000_0000 && 0 < windowB < 0x8000_0000 && Smooth(windowA, windowB, run)
    requires !Orderly(windowA, windowB, run)
    ensures var sys := Exec(windowA, windowB, run);
            CutOff(sys.a.snd, sys.b.rcv) || CutOff(sys.b.snd, sys.a.rcv)
    decreases |run|
  {
    var before, s := run[..|run| - 1], run[|run| - 1];
    RunKeeps(windowA, windowB, before);
    var (h, peer) := At(Exec(windowA, windowB, before), s);
    if !Orderly(windowA, windowB, before) {
      RunCutOff(windowA, windowB, before);
    }
    CutOffStays(h, peer, s.e);
  }

  /** The end of the output means that everything is delivered, in both directions, exactly when no step
      acted on an end mark other than the packet waited for. */
  lemma EofMeansDelivered(windowA: nat, windowB: nat, run: seq<Step>)
    requires 0 < windowA < 0x8000_0000 && 0 < windowB < 0x8000_0000 && Smooth(windowA, windowB, run)
    ensures SysComplete(Exec(windowA, windowB, run)) <==> Orderly(windowA, windowB, run)
  {
    RunKeeps(windowA, windowB, run);
    if !Orderly(windowA, windowB, run) {
      RunCutOff(windowA, windowB, run);
    }
  }

  /** In a direction whose sender is done and acknowledged, the receiver has seen the end mark. */
  lemma AckedIsEnded(s: Sender, r: Receiver)
    requires DirInv(s, r) && s.readEof && s.lastSeqnoSent + 1 == s.lastAcknoRecvd
    ensures r.lastEof
  {
    assert |s.taken| > 0 && s.taken[|s.taken| - 1] == [];
  }

  /** A connection that closes has delivered all it read and put out all its peer read. */
  lemma CloseMeansDelivered(windowA: nat, windowB: nat, run: seq<Step>, atA: bool)
    requires 0 < windowA < 0x8000_0000 && 0 < windowB < 0x8000_0000
    requires Smooth(windowA, windowB, run) && Orderly(windowA, windowB, run)
    requires var sys := Exec(windowA, windowB, run); ShouldCloseConn(if atA then sys.a else sys.b)
    ensures var sys := Exec(windowA, windowB, run);
      && sys.a.rcv.eofOut && sys.b.rcv.eofOut && sys.a.snd.readEof && sys.b.snd.readEof
      && sys.a.rcv.output == Concat(sys.b.snd.taken) && sys.b.rcv.output == Concat(sys.a.snd.taken)
  {
    RunKeeps(windowA, windowB, run);
    var sys := Exec(windowA, windowB, run);
    if atA {
      AckedIsEnded(sys.a.snd, sys.b.rcv);
    } else {
      AckedIsEnded(sys.b.snd, sys.a.rcv);
    }
  }

  // ---------------------------------------------------------------------------------------------
  // Stop and wait
  // ---------------------------------------------------------------------------------------------

  lemma OneSlot(r: Receiver, spaces: seq<nat>)
    requires r.Shaped() && r.window == 1
    ensures !LosesAck(r, spaces)
  {
  }

  lemma OneSlotIsOrderly(h: Host, peer: Host, e: Event)
    requires h.Shaped() && h.rcv.window == 1 && SentHolds(peer.snd.sent, peer.snd.taken)
    ensures !LeavesUnacked(h, peer, e) && !EndsEarly(h, peer, e)
  {
    match e
    case Drained(spaces) => OneSlot(h.rcv, spaces);
    case DataArrives(k, spaces) =>
      if k < |peer.snd.sent| && peer.snd.sent[k].Data? {
        OneSlot(AddPktToRecvWindow(h.rcv, peer.snd.sent[k]), spaces);
      }
    case _ =>
  }

  /** With windows of one packet every run is smooth and orderly. */
  lemma {:induction false} StopAndWaitIsOrderly(run: seq<Step>)
    ensures Smooth(1, 1, run) && Orderly(1, 1, run)
    decreases |run|
  {
    if run != [] {
      var before, s := run[..|run| - 1], run[|run| - 1];
      StopAndWaitIsOrderly(before);
      RunKeeps(1, 1, before);
      var (h, peer) := At(Exec(1, 1, before), s);
      OneSlotIsOrderly(h, peer, s.e);
    }
  }

  /** Stop and wait, on every run: safe, the end of the output only after everything, and a connection
      closes only when both directions are done. */
  lemma StopAndWait(run: seq<Step>)
    ensures var sys := Exec(1, 1, run);
      && DirSafe(sys.a.snd, sys.b.rcv) && DirSafe(sys.b.snd, sys.a.rcv)
      && (sys.b.rcv.eofOut ==> sys.a.snd.readEof && sys.b.rcv.output == Concat(sys.a.snd.taken))
      && (sys.a.rcv.eofOut ==> sys.b.snd.readEof && sys.a.rcv.output == Concat(sys.b.snd.taken))
      && (ShouldCloseConn(sys.a) || ShouldCloseConn(sys.b) ==> sys.a.rcv.eofOut && sys.b.rcv.eofOut)
  {
    StopAndWaitIsOrderly(run);
    RunKeeps(1, 1, run);
    SlidingWindowSafety(1, 1, run);
    var sys := Exec(1, 1, run);
    if ShouldCloseConn(sys.a) {
      CloseMeansDelivered(1, 1, run, true);
    } else if ShouldCloseConn(sys.b) {
      CloseMeansDelivered(1, 1, run, false);
    }
  }

  // ---------------------------------------------------------------------------------------------
  // Larger windows: what goes wrong without the two conditions
  // ---------------------------------------------------------------------------------------------

  lemma ExecAppend(windowA: nat, windowB: nat, run: seq<Step>, s: Step)
    requires windowA > 0 && windowB > 0
    ensures Exec(windowA, windowB, run + [s]) == Next(Exec(windowA, windowB, run), s)
  {
    assert (run + [s])[..|run|] == run;
  }

  /** A sender with a window of two after reading chunks b and c, the second possibly the end. */
  lemma TwoPackets(b: Chunk, second: Input) returns (s: Sender)
    requires |b| > 0 && (second.Bytes? ==> |second.b| > 0)
    ensures s == RelRead(InitSender(2), 1, [Bytes(b), second])
    ensures var c := if second.Eof? then [] else second.b;
      s.sent == [Data(1, 1, b), Data(1, 2, c)] && s.taken == [b, c]
  {
    s := RelRead(InitSender(2), 1, [Bytes(b), second]);
    var s1 := SendNewDataPkt(InitSender(2), 1, b);
    var s2 := if |b| < MAX_PAYLOAD then s1.(partial := true) else s1;
    assert AvailSendWindowSlots(InitSender(2)) == 2;
    assert [Bytes(b), second][1..] == [second];
    assert s == ReadLoop(s2, 1, 1, [second]);
    assert [second][1..] == [];
  }

  /** The sender reads a byte and the end mark. */
  lemma ByteAndEof() returns (s: Step, sys: System)
    ensures sys == Exec(2, 2, [s]) && Smooth(2, 2, [s]) && sys.a.Shaped() && sys.b == InitHost(2)
    ensures sys.a.snd.sent == [Data(1, 1, [7]), Data(1, 2, [])] && sys.a.snd.taken == [[7], []]
  {
    s := Step(true, ReadReady([Bytes([7]), Eof]));
    ExecAppend(2, 2, [], s);
    assert [] + [s] == [s] && [s][..0] == [];
    sys := Exec(2, 2, [s]);
    var snd := TwoPackets([7], Eof);
    assert sys.a.snd == snd;
  }

  /** The end mark arrives at a receiver that waits for the first packet. */
  lemma EofFirst()
    ensures var r := ProcessDataPkt(InitHost(2).rcv, Data(1, 2, []), []); r.eofOut && r.output == []
    ensures AcceptsEof(InitHost(2).rcv, Data(1, 2, []))
  {
    assert PktIdx(2, 2) == 1;
  }

  /** With a window of two: one byte, then the end; the packet with the byte is late. The output ends empty. */
  lemma EndsEarlyExample()
    ensures exists run: seq<Step> ::
      var sys := Exec(2, 2, run);
      Smooth(2, 2, run) && sys.b.rcv.eofOut && sys.b.rcv.output == [] && Concat(sys.a.snd.taken) == [7]
  {
    var s1, sys1 := ByteAndEof();
    var s2 := Step(false, DataArrives(1, []));
    var run := [s1] + [s2];
    ExecAppend(2, 2, [s1], s2);
    DataAtB(sys1, 1, []);
    EofFirst();
    TwoChunks([7], []);
    assert run[..1] == [s1];
    assert Smooth(2, 2, run);
  }

  lemma DataAtB(sys: System, k: nat, spaces: seq<nat>)
    requires sys.a.Shaped() && sys.b.Shaped() && k < |sys.a.snd.sent| && sys.a.snd.sent[k].Data?
    ensures var sys' := Next(sys, Step(false, DataArrives(k, spaces)));
      sys'.a == sys.a && sys'.b.rcv == ProcessDataPkt(sys.b.rcv, sys.a.snd.sent[k], spaces)
  {
  }

  lemma TwoChunks(b: Chunk, c: Chunk)
    ensures Concat([b, c]) == b + c
  {
    assert [b, c][..1] == [b] && [b][..0] == [];
    assert Concat([b]) == b;
  }
}
