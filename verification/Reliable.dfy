/** The state of one connection, updated in place, against the handlers of Transport. */
module Reliable {
  import opened Arith
  import opened Transport

  lemma OutputPktsIs(r: Receiver, spaces: seq<nat>, r1: Receiver, n: nat, stopped: bool)
    requires r.Shaped() && OutputLoop(r, 0, spaces) == (r1, n, stopped)
    ensures Transport.OutputPkts(r, spaces) ==
            if !stopped && n % COUNTER > 0 then SendAck(r1, r1.lastAcknoSent + n % COUNTER) else r1
  {
  }

  /** One turn of the loop. */
  lemma TurnIs(r: Receiver, n: nat, spaces: seq<nat>, idx: nat, payload: Chunk, goal: (Receiver, nat, bool))
      returns (next: Receiver)
    requires r.Shaped() && idx == PktIdx(r.lastAcknoSent + n % COUNTER, r.window) && r.hasRecvd[idx]
    requires payload == PayloadOf(r.pktsRecvd[idx]) && OutputLoop(r, n, spaces) == goal
    ensures var k := BytesToOutput(SpaceAt(spaces, n), r.lastBytes, |payload|);
      var r1 := Transport.OutputPkt(r, SpaceAt(spaces, n), k, payload);
      if r.lastBytes + k != |payload| then next == r1.(lastBytes := r.lastBytes + k) && goal == (next, n, true)
      else
        && next == r1.(lastBytes := 0, hasRecvd := r.hasRecvd[idx := false]) && next.Shaped()
        && goal == OutputLoop(next, n + 1, spaces)
    ensures CountTrue(r.hasRecvd[idx := false]) < CountTrue(r.hasRecvd)
  {
    CountTrueCleared(r.hasRecvd, idx);
    var k := BytesToOutput(SpaceAt(spaces, n), r.lastBytes, |payload|);
    var r1 := Transport.OutputPkt(r, SpaceAt(spaces, n), k, payload);
    next :=
      if r.lastBytes + k != |payload| then r1.(lastBytes := r.lastBytes + k)
      else r1.(lastBytes := 0, hasRecvd := r.hasRecvd[idx := false]);
  }

  /** The counter after one more packet. */
  lemma CounterNext(n: nat)
    ensures (n + 1) % COUNTER == (n % COUNTER + 1) % COUNTER
  {
  }

  class RelState {
    const window: nat
    const timeoutMillis: nat

    const pktsSent: array<Packet>
    const pktsRecvd: array<Packet>
    const hasRecvd: array<bool>
    const sendTimeMillis: array<nat>

    var lastAcknoSent: nat
    var lastAcknoRecvd: nat
    var lastSeqnoSent: nat
    var lastSeqnoRecvd: nat
    var lastBytes: nat
    var lastEof: bool
    var readEof: bool
    var partial: bool

    // what went through the connection object
    var taken: seq<Chunk>
    var sent: seq<Packet>
    var acks: seq<nat>
    var output: seq<byte>
    var eofOut: bool

    ghost predicate Valid()
    {
      && window > 0
      && pktsSent.Length == pktsRecvd.Length == hasRecvd.Length == sendTimeMillis.Length == window
      && pktsSent != pktsRecvd
    }

    ghost function Snd(): Sender
      reads this, pktsSent
    {
      Sender(window, pktsSent[..], lastAcknoRecvd, lastSeqnoSent, readEof, partial, taken, sent)
    }

    ghost function Rcv(): Receiver
      reads this, pktsRecvd, hasRecvd
    {
      Receiver(window, pktsRecvd[..], hasRecvd[..], lastAcknoSent, lastSeqnoRecvd, lastBytes, lastEof, output, eofOut,
               acks)
    }

    /** The connection as a value. */
    ghost function State(): Host
      reads this, pktsSent, pktsRecvd, hasRecvd
    {
      Host(Snd(), Rcv())
    }

    constructor (window: nat, timeoutMillis: nat)
      requires window > 0
      ensures Valid() && this.window == window && State() == InitHost(window)
    {
      this.window := window;
      this.timeoutMillis := timeoutMillis;
      pktsSent := new Packet[window](_ => Ack(0));
      pktsRecvd := new Packet[window](_ => Ack(0));
      hasRecvd := new bool[window](_ => false);
      sendTimeMillis := new nat[window](_ => 0);
      lastSeqnoSent, lastSeqnoRecvd, lastAcknoSent, lastAcknoRecvd := 0, 1, 1, 1;
      lastEof, lastBytes, readEof, partial := false, 0, false, false;
      taken, sent, acks, output, eofOut := [], [], [], [], false;
    }

    method SendNewDataPkt(data: Chunk, now: nat)
      requires Valid()
      modifies this`lastSeqnoSent, this`taken, this`sent, pktsSent, sendTimeMillis
      ensures Snd() == Transport.SendNewDataPkt(old(Snd()), lastAcknoSent, data)
    {
      var pkt := Data(lastAcknoSent, lastSeqnoSent + 1, data);
      var idx := PktIdx(lastSeqnoSent + 1, window);
      pktsSent[idx] := pkt;
      sendTimeMillis[idx] := now;
      lastSeqnoSent := lastSeqnoSent + 1;
      taken := taken + [data];
      sent := sent + [pkt];
    }

    method RelRead(inputs: seq<Input>, now: nat)
      requires Valid()
      modifies this`lastSeqnoSent, this`taken, this`sent, this`readEof, this`partial, pktsSent, sendTimeMillis
      ensures Snd() == Transport.RelRead(old(Snd()), lastAcknoSent, inputs)
    {
      if readEof || partial {
        return;
      }
      ghost var goal := Transport.RelRead(Snd(), lastAcknoSent, inputs);
      var slots := (window - (lastSeqnoSent - lastAcknoRecvd + 1)) % 0x1_0000_0000;
      var rest := inputs;
      while slots > 0
        invariant slots >= 0
        invariant ReadLoop(Snd(), lastAcknoSent, slots, rest) == goal
      {
        if rest == [] {
          return;
        }
        var input := rest[0];
        rest := rest[1..];
        if input.Eof? {
          readEof := true;
          SendNewDataPkt([], now);
          return;
        }
        if input.b == [] {
          return;
        }
        SendNewDataPkt(input.b, now);
        if |input.b| < MAX_PAYLOAD {
          partial := true;
        }
        slots := slots - 1;
      }
    }

    method ProcessAckPkt(acked: nat, inputs: seq<Input>, now: nat)
      requires Valid()
      modifies this`lastAcknoRecvd, this`lastSeqnoSent, this`taken, this`sent, this`readEof, this`partial
      modifies pktsSent, sendTimeMillis
      ensures Snd() == Transport.ProcessAckPkt(old(Snd()), acked, lastAcknoSent, inputs)
    {
      if acked <= lastAcknoRecvd {
        return;
      }
      if acked > lastSeqnoSent + 1 {
        return;
      }
      if partial && acked == lastSeqnoSent + 1 {
        partial := false;
      }
      lastAcknoRecvd := acked;
      RelRead(inputs, now);
    }

    method RetransmitPkt(now: nat)
      requires Valid()
      modifies this`sent
      ensures var t := sendTimeMillis[PktIdx(lastAcknoRecvd, window)];
        Snd() == Transport.RetransmitPkt(old(Snd()), (now - t) % 0x1_0000_0000 > timeoutMillis)
    {
      if lastSeqnoSent < lastAcknoRecvd {
        return;
      }
      var idx := PktIdx(lastAcknoRecvd, window);
      if (now - sendTimeMillis[idx]) % 0x1_0000_0000 > timeoutMillis {
        sent := sent + [pktsSent[idx]];
      }
    }

    method SendAckPkt(ackno: nat)
      modifies this`lastAcknoSent, this`acks
      ensures Rcv() == SendAck(old(Rcv()), ackno)
    {
      acks := acks + [ackno];
      lastAcknoSent := ackno;
    }

    /** conn_output for part of a packet; returns how many bytes went out. */
    method OutputPkt(payload: Chunk, space: nat) returns (k: nat)
      modifies this`output, this`eofOut
      ensures k == BytesToOutput(space, lastBytes, |payload|)
      ensures Rcv() == Transport.OutputPkt(old(Rcv()), space, k, payload)
    {
      k := BytesToOutput(space, lastBytes, |payload|);
      if space == 0 {
        return;
      }
      if k == 0 {
        eofOut := true;
      } else {
        output := output + payload[lastBytes..lastBytes + k];
      }
    }

    /** The loop body of output_pkts, in its turn look: true when it leaves from the middle of a packet. */
    method OutputNext(idx: nat, look: nat, spaces: seq<nat>, ghost goal: (Receiver, nat, bool)) returns (stopped: bool)
      requires Valid() && idx == PktIdx(lastAcknoSent + look % COUNTER, window) && hasRecvd[idx]
      requires OutputLoop(Rcv(), look, spaces) == goal
      modifies this`output, this`eofOut, this`lastBytes, hasRecvd
      ensures if stopped then goal == (Rcv(), look, true) else goal == OutputLoop(Rcv(), look + 1, spaces)
      ensures !stopped ==> CountTrue(hasRecvd[..]) < CountTrue(old(hasRecvd[..]))
    {
      var payload := PayloadOf(pktsRecvd[idx]);
      ghost var next := TurnIs(Rcv(), look, spaces, idx, payload, goal);
      var k := OutputPkt(payload, SpaceAt(spaces, look));
      stopped := lastBytes + k != |payload|;
      if stopped {
        lastBytes := lastBytes + k;
      } else {
        lastBytes := 0;
        hasRecvd[idx] := false;
        assert hasRecvd[..] == old(hasRecvd[..])[idx := false];
      }
      assert Rcv() == next;
    }

    /** The turns of output_pkts are at look, and numPkts, which has sixteen bits, and idx are for it. */
    ghost predicate Turning(numPkts: nat, idx: nat, look: nat, spaces: seq<nat>, goal: (Receiver, nat, bool))
      requires Valid()
      reads this, pktsRecvd, hasRecvd
    {
      && numPkts == look % COUNTER && idx == PktIdx(lastAcknoSent + numPkts, window)
      && OutputLoop(Rcv(), look, spaces) == goal
    }

    lemma StartTurning(spaces: seq<nat>, idx: nat)
      requires Valid() && idx == PktIdx(lastAcknoSent, window)
      ensures Turning(0, idx, 0, spaces, OutputLoop(Rcv(), 0, spaces))
    {
    }

    /** No packet is held where the turns are. */
    lemma EndTurning(numPkts: nat, idx: nat, look: nat, spaces: seq<nat>, goal: (Receiver, nat, bool))
      requires Valid() && Turning(numPkts, idx, look, spaces, goal) && !hasRecvd[idx]
      ensures goal == (Rcv(), look, false)
    {
    }

    /** One turn, with what the next one needs. */
    method OutputStep(numPkts: nat, idx: nat, look: nat, spaces: seq<nat>, ghost goal: (Receiver, nat, bool))
        returns (stopped: bool, numPkts': nat, idx': nat)
      requires Valid() && Turning(numPkts, idx, look, spaces, goal) && hasRecvd[idx]
      modifies this`output, this`eofOut, this`lastBytes, hasRecvd
      ensures if stopped then goal == (Rcv(), look, true) && numPkts' == numPkts
              else
                && Turning(numPkts', idx', look + 1, spaces, goal)
                && CountTrue(hasRecvd[..]) < CountTrue(old(hasRecvd[..]))
      ensures idx' < window
    {
      numPkts', idx' := numPkts, idx;
      stopped := OutputNext(idx, look, spaces, goal);
      if !stopped {
        CounterNext(look);
        numPkts' := (numPkts + 1) % COUNTER;
        idx' := PktIdx(lastAcknoSent + numPkts', window);
      }
    }

    /** The loop of output_pkts. */
    method OutputHeld(spaces: seq<nat>) returns (numPkts: nat, stopped: bool, ghost turns: nat)
      requires Valid()
      modifies this`output, this`eofOut, this`lastBytes, hasRecvd
      ensures OutputLoop(old(Rcv()), 0, spaces) == (Rcv(), turns, stopped) && numPkts == turns % COUNTER
    {
      ghost var goal := OutputLoop(Rcv(), 0, spaces);
      numPkts, stopped := 0, false;
      var look: nat := 0;
      var idx: nat := PktIdx(lastAcknoSent, window);
      StartTurning(spaces, idx);
      while hasRecvd[idx]
        invariant idx < window && Turning(numPkts, idx, look, spaces, goal)
        decreases CountTrue(hasRecvd[..])
      {
        stopped, numPkts, idx := OutputStep(numPkts, idx, look, spaces, goal);
        if stopped {
          return numPkts, true, look;
        }
        look := look + 1;
      }
      turns := look;
      EndTurning(numPkts, idx, look, spaces, goal);
    }

    /** Passes on what is next in the ring, as far as there is space for it. */
    method OutputPkts(spaces: seq<nat>)
      requires Valid()
      modifies this`output, this`eofOut, this`lastBytes, this`lastAcknoSent, this`acks, hasRecvd
      ensures Rcv() == Transport.OutputPkts(old(Rcv()), spaces)
    {
      var numPkts, stopped;
      ghost var turns;
      numPkts, stopped, turns := OutputHeld(spaces);
      OutputPktsIs(old(Rcv()), spaces, Rcv(), turns, stopped);
      if !stopped && numPkts > 0 {
        SendAckPkt(lastAcknoSent + numPkts);
      }
    }

    method AddPktToRecvWindow(p: Packet)
      requires Valid() && p.Data?
      modifies this`lastSeqnoRecvd, pktsRecvd, hasRecvd
      ensures Rcv() == Transport.AddPktToRecvWindow(old(Rcv()), p)
    {
      var idx := PktIdx(p.seqno, window);
      pktsRecvd[idx] := p;
      hasRecvd[idx] := true;
      if p.seqno > lastSeqnoRecvd {
        lastSeqnoRecvd := p.seqno;
      }
    }

    method ProcessDataPkt(p: Packet, spaces: seq<nat>)
      requires Valid() && p.Data?
      modifies this`output, this`eofOut, this`lastBytes, this`lastAcknoSent, this`acks, this`lastSeqnoRecvd,
        this`lastEof
      modifies pktsRecvd, hasRecvd
      ensures Rcv() == Transport.ProcessDataPkt(old(Rcv()), p, spaces)
    {
      if p.seqno < lastAcknoSent || p.seqno >= lastAcknoSent + window {
        SendAckPkt(lastAcknoSent);
        return;
      }
      if hasRecvd[PktIdx(p.seqno, window)] {
        SendAckPkt(lastAcknoSent);
        return;
      }
      if lastEof {
        SendAckPkt(lastAcknoSent);
        return;
      }
      if p.payload == [] {
        if lastAcknoSent < lastSeqnoRecvd {
          SendAckPkt(lastAcknoSent);
        } else {
          lastEof := true;
          eofOut := true;
          SendAckPkt(lastAcknoSent + 1);
        }
        return;
      }
      AddPktToRecvWindow(p);
      OutputPkts(spaces);
    }

    method ShouldCloseConn() returns (close: bool)
      requires Valid()
      ensures close == Transport.ShouldCloseConn(State())
    {
      if !lastEof {
        return false;
      } else if !readEof {
        return false;
      } else if lastSeqnoSent + 1 != lastAcknoRecvd {
        return false;
      } else if lastAcknoSent < lastSeqnoRecvd {
        return false;
      } else {
        return true;
      }
    }
  }
}
